/** `publish_all_serial` of sacct_backfill.py. */
module SerialBackfill {
  import opened Wrappers
  import opened TimeBounds

  datatype Event = Publish(chunk: Interval) | Sleep(seconds: nat)

  datatype Outcome = Completed | NoChunks | PublishRaised

  /** The publishes of a trace, in order. */
  function Published(events: seq<Event>): seq<Interval> {
    if events == [] then []
    else Published(events[..|events| - 1])
         + (if events[|events| - 1].Publish? then [events[|events| - 1].chunk] else [])
  }

  /** Publish the chunks with one sleep between neighbours. */
  function Script(chunks: seq<Interval>, sleep: nat): seq<Event> {
    if chunks == [] then []
    else
      var n := |chunks| - 1;
      Script(chunks[..n], sleep) + (if n > 0 then [Sleep(sleep)] else []) + [Publish(chunks[n])]
  }

  lemma {:induction false} ScriptPublishes(chunks: seq<Interval>, sleep: nat)
    ensures Published(Script(chunks, sleep)) == chunks
    ensures |Script(chunks, sleep)| == if chunks == [] then 0 else 2 * |chunks| - 1
  {
    if chunks != [] {
      hide Published;
      var n := |chunks| - 1;
      ScriptPublishes(chunks[..n], sleep);
      var before := Script(chunks[..n], sleep);
      if n > 0 {
        PublishedAppend(before, Sleep(sleep));
        PublishedAppend(before + [Sleep(sleep)], Publish(chunks[n]));
      } else {
        PublishedAppend([], Publish(chunks[n]));
        assert Script(chunks, sleep) == [] + [Publish(chunks[n])];
      }
    } else {
      assert Published([]) == [];
    }
  }

  /** Publishes and sleeps take turns. */
  ghost predicate TakeTurns(events: seq<Event>, chunks: seq<Interval>, sleep: nat) {
    && |events| == (if chunks == [] then 0 else 2 * |chunks| - 1)
    && (forall i :: 0 <= i < |chunks| ==> events[2 * i] == Publish(chunks[i]))
    && (forall i :: 0 <= i < |chunks| - 1 ==> events[2 * i + 1] == Sleep(sleep))
  }

  lemma {:induction false} ScriptTakesTurns(chunks: seq<Interval>, sleep: nat)
    ensures TakeTurns(Script(chunks, sleep), chunks, sleep)
  {
    if chunks != [] {
      var n := |chunks| - 1;
      var before := Script(chunks[..n], sleep);
      ScriptTakesTurns(chunks[..n], sleep);
      assert forall i :: 0 <= i < |before| ==> Script(chunks, sleep)[i] == before[i];
    }
  }

  lemma PublishedAppend(events: seq<Event>, e: Event)
    ensures Published(events + [e]) == Published(events) + (if e.Publish? then [e.chunk] else [])
  {
    assert (events + [e])[..|events|] == events;
  }

  /** How many publishes are attempted: up to and including the first that raises. */
  ghost predicate Attempts(chunks: seq<Interval>, raises: Interval -> bool, n: nat) {
    && n <= |chunks|
    && (forall i :: 0 <= i < n - 1 ==> !raises(chunks[i]))
    && (n == |chunks| || (n > 0 && raises(chunks[n - 1])))
  }

  method PublishAllSerial(chunks: seq<Interval>, raises: Interval -> bool, sleep: nat)
    returns (events: seq<Event>, n: nat, outcome: Outcome)
    ensures Attempts(chunks, raises, n) && events == Script(chunks[..n], sleep)
    ensures Published(events) == chunks[..n] && TakeTurns(events, chunks[..n], sleep)
    ensures outcome == if chunks == [] then NoChunks
                       else if raises(chunks[n - 1]) then PublishRaised
                       else Completed
  {
    if chunks == [] {
      return [], 0, NoChunks;
    }
    events, n := [Publish(chunks[0])], 1;
    assert events == Script(chunks[..1], sleep);
    while n < |chunks| && !raises(chunks[n - 1])
      invariant 1 <= n <= |chunks|
      invariant events == Script(chunks[..n], sleep)
      invariant forall i :: 0 <= i < n - 1 ==> !raises(chunks[i])
    {
      assert chunks[..n + 1][..n] == chunks[..n];
      events := events + [Sleep(sleep)] + [Publish(chunks[n])];
      n := n + 1;
    }
    ScriptPublishes(chunks[..n], sleep);
    ScriptTakesTurns(chunks[..n], sleep);
    outcome := if raises(chunks[n - 1]) then PublishRaised else Completed;
  }
}
