/**
 One connection's decoder over the lines it receives in order. The only thing
 carried from line to line is the bound device, so the binding after any
 prefix of the stream is the device of the last resolved announcement in it.
 */
module Connection {
  import opened Options
  import opened Clock
  import opened Aspicore

  /** A received line, with the wall-clock date and the device directory as
      they are at the moment it is decoded. */
  datatype Message = Message(line: string, today: Date, lookup: Directory)

  /** The state after a stream, and what each line produced, in order. */
  datatype Trace = Trace(state: State, records: seq<Option<Position>>)

  /** Feeds the lines to the decoder one after the other. */
  function Run(st: State, msgs: seq<Message>): (t: Trace)
    ensures |t.records| == |msgs|
    decreases |msgs|
  {
    if |msgs| == 0 then Trace(st, [])
    else
      var out := Decode(st, msgs[0].line, msgs[0].lookup, msgs[0].today);
      var rest := Run(out.state, msgs[1..]);
      Trace(rest.state, [out.record] + rest.records)
  }

  /** Reference definition of the binding, read from the back of the stream:
      the device of the last resolved announcement, or the starting binding
      when there is none. */
  function LatestBinding(st: State, msgs: seq<Message>): Option<DeviceId>
  {
    if |msgs| == 0 then st.deviceId
    else match Announced(msgs[|msgs| - 1].line, msgs[|msgs| - 1].lookup)
      case Some(id) => Some(id)
      case None => LatestBinding(st, msgs[..|msgs| - 1])
  }

  /** Decoding the first line and then the rest ends with the same reference binding. */
  lemma {:induction false} LatestBindingFront(st: State, msgs: seq<Message>)
    requires |msgs| > 0
    ensures LatestBinding(st, msgs)
         == LatestBinding(Decode(st, msgs[0].line, msgs[0].lookup, msgs[0].today).state, msgs[1..])
    decreases |msgs|
  {
    var next := Decode(st, msgs[0].line, msgs[0].lookup, msgs[0].today).state;
    var n := |msgs|;
    if n > 1 && Announced(msgs[n - 1].line, msgs[n - 1].lookup).None? {
      LatestBindingFront(st, msgs[..n - 1]);
      assert msgs[..n - 1][1..] == msgs[1..][..n - 2];
      assert msgs[..n - 1][0] == msgs[0];
    }
  }

  /** The last announcement wins: the binding after a stream is the reference binding. */
  lemma {:induction false} LastAnnouncementWins(st: State, msgs: seq<Message>)
    ensures Run(st, msgs).state == State(LatestBinding(st, msgs))
    decreases |msgs|
  {
    if |msgs| > 0 {
      var next := Decode(st, msgs[0].line, msgs[0].lookup, msgs[0].today).state;
      LastAnnouncementWins(next, msgs[1..]);
      LatestBindingFront(st, msgs);
    }
  }

  /** Decoding a stream in two pieces is decoding it at once. */
  lemma {:induction false} RunConcat(st: State, a: seq<Message>, b: seq<Message>)
    ensures var first := Run(st, a);
      var second := Run(first.state, b);
      Run(st, a + b) == Trace(second.state, first.records + second.records)
    decreases |a|
  {
    if |a| > 0 {
      var next := Decode(st, a[0].line, a[0].lookup, a[0].today).state;
      assert (a + b)[0] == a[0] && (a + b)[1..] == a[1..] + b;
      RunConcat(next, a[1..], b);
    } else {
      assert a + b == b;
    }
  }

  /** The `i`-th record is what the decoder makes of line `i` in the state the earlier lines left. */
  lemma RecordAt(st: State, msgs: seq<Message>, i: nat)
    requires i < |msgs|
    ensures Run(st, msgs).records[i]
         == Decode(Run(st, msgs[..i]).state, msgs[i].line, msgs[i].lookup, msgs[i].today).record
  {
    assert msgs == msgs[..i] + msgs[i..];
    RunConcat(st, msgs[..i], msgs[i..]);
    assert msgs[i..][0] == msgs[i];
  }

  /** A line yields a record exactly when some device is bound by the earlier
      lines and the line is a complete location sentence; the record belongs
      to that device. */
  lemma RecordOwner(st: State, msgs: seq<Message>, i: nat)
    requires i < |msgs|
    ensures var r := Run(st, msgs).records[i];
      && (r.Some? <==> LatestBinding(st, msgs[..i]).Some?
                       && (Patterns.MatchRmc(msgs[i].line).Some? || Patterns.MatchGga(msgs[i].line).Some?))
      && (r.Some? ==> LatestBinding(st, msgs[..i]) == Some(r.value.deviceId))
  {
    RecordAt(st, msgs, i);
    LastAnnouncementWins(st, msgs[..i]);
  }

  /** Without a resolved announcement the binding stays what it was. */
  lemma {:induction false} NoAnnouncementKeepsBinding(st: State, msgs: seq<Message>)
    requires forall j :: 0 <= j < |msgs| ==> Announced(msgs[j].line, msgs[j].lookup).None?
    ensures LatestBinding(st, msgs) == st.deviceId
    decreases |msgs|
  {
    var n := |msgs|;
    if n > 0 {
      assert Announced(msgs[n - 1].line, msgs[n - 1].lookup).None?;
      NoAnnouncementKeepsBinding(st, msgs[..n - 1]);
    }
  }

  /** On a fresh connection nothing is reported until an announcement resolves. */
  lemma SilentUntilAnnounced(msgs: seq<Message>, i: nat)
    requires i < |msgs|
    requires forall j :: 0 <= j < i ==> Announced(msgs[j].line, msgs[j].lookup).None?
    ensures Run(Unbound, msgs).records[i].None?
  {
    NoAnnouncementKeepsBinding(Unbound, msgs[..i]);
    RecordOwner(Unbound, msgs, i);
  }
}
