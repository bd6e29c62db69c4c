/** The sink that drops repeated messages and announces how many it dropped. */
module DupFilter {
  import opened Decimal

  datatype Msg = Msg(logger: string, time: int, payload: string)

  /** What the sinks behind the filter receive. */
  datatype Sent = Forward(msg: Msg) | Notice(logger: string, text: string)

  datatype Filter = Filter(lastTime: int, lastPayload: string, skips: nat)

  const INITIAL := Filter(0, "", 0)

  const HEAD: string := "Skipped "
  const TAIL: string := " duplicate messages.."

  function NoticeText(count: nat): string {
    HEAD + ToDecimal(count % MODULUS_32) + TAIL
  }

  /** The count a notice announces, read from its text. */
  ghost predicate Announces(text: string, count: nat) {
    && |HEAD| + |TAIL| <= |text| && text[..|HEAD|] == HEAD && text[|text| - |TAIL|..] == TAIL
    && AllDigits(text[|HEAD|..|text| - |TAIL|])
    && Value(text[|HEAD|..|text| - |TAIL|]) == count
  }

  /** The notice announces the count modulo the width of an unsigned, and always fits its buffer of 64 characters. */
  lemma NoticeReadsBack(count: nat)
    ensures Announces(NoticeText(count), count % MODULUS_32)
    ensures 0 < |NoticeText(count)| < 64
  {
    var digits := ToDecimal(count % MODULUS_32);
    var text := NoticeText(count);
    assert text[|HEAD|..|text| - |TAIL|] == digits;
    ValueOfToDecimal(count % MODULUS_32);
    assert Power10(10) == 10000000000 by {
      assert Power10(5) == 100000;
    }
    LengthOfToDecimal(count % MODULUS_32, 10);
  }

  // ---------------------------------------------------------------- one message

  predicate Passes(maxSkip: int, f: Filter, m: Msg) {
    m.time - f.lastTime > maxSkip || m.payload != f.lastPayload
  }

  function Next(maxSkip: int, f: Filter, m: Msg): Filter {
    if Passes(maxSkip, f, m) then Filter(m.time, m.payload, 0) else f.(skips := (f.skips + 1) % MODULUS_64)
  }

  function Output(maxSkip: int, f: Filter, m: Msg): seq<Sent> {
    if !Passes(maxSkip, f, m) then []
    else if f.skips > 0 then [Notice(m.logger, NoticeText(f.skips)), Forward(m)]
    else [Forward(m)]
  }

  class DupFilterSink {
    const maxSkipDuration: int
    var lastMsgTime: int
    var lastMsgPayload: string
    var skipCounter: nat
    var sent: seq<Sent>

    function State(): Filter
      reads this
    {
      Filter(lastMsgTime, lastMsgPayload, skipCounter)
    }

    constructor (maxSkipDuration: int)
      ensures this.maxSkipDuration == maxSkipDuration && State() == INITIAL && sent == []
    {
      this.maxSkipDuration := maxSkipDuration;
      lastMsgTime, lastMsgPayload, skipCounter, sent := 0, "", 0, [];
    }

    method FilterMsg(m: Msg) returns (passes: bool)
      ensures passes == Passes(maxSkipDuration, State(), m)
    {
      var filterDuration := m.time - lastMsgTime;
      passes := filterDuration > maxSkipDuration || m.payload != lastMsgPayload;
    }

    method SinkIt(m: Msg)
      modifies this
      ensures State() == Next(maxSkipDuration, old(State()), m)
      ensures sent == old(sent) + Output(maxSkipDuration, old(State()), m)
    {
      var passes := FilterMsg(m);
      if !passes {
        skipCounter := (skipCounter + 1) % MODULUS_64;
        return;
      }
      if skipCounter > 0 {
        NoticeReadsBack(skipCounter);
        var text := HEAD + ToDecimal(skipCounter % MODULUS_32) + TAIL;
        if 0 < |text| < 64 {
          sent := sent + [Notice(m.logger, text)];
        }
      }
      sent := sent + [Forward(m)];
      lastMsgTime := m.time;
      skipCounter := 0;
      lastMsgPayload := m.payload;
    }
  }

  // ---------------------------------------------------------------- runs

  function After(maxSkip: int, f: Filter, ms: seq<Msg>): Filter
    decreases |ms|
  {
    if ms == [] then f else After(maxSkip, Next(maxSkip, f, ms[0]), ms[1..])
  }

  function Outputs(maxSkip: int, f: Filter, ms: seq<Msg>): seq<Sent>
    decreases |ms|
  {
    if ms == [] then [] else Output(maxSkip, f, ms[0]) + Outputs(maxSkip, Next(maxSkip, f, ms[0]), ms[1..])
  }

  /** The messages that got through. */
  function Forwarded(sent: seq<Sent>): seq<Msg> {
    if sent == [] then [] else ForwardIn(sent[0]) + Forwarded(sent[1..])
  }

  function ForwardIn(s: Sent): seq<Msg> {
    if s.Forward? then [s.msg] else []
  }

  /** The sum of the announced counts. */
  ghost function Announced(sent: seq<Sent>): nat {
    if sent == [] then 0
    else (if sent[0].Notice? then CountIn(sent[0].text) else 0) + Announced(sent[1..])
  }

  ghost function CountIn(text: string): nat {
    if c: nat :| Announces(text, c) then c else 0
  }

  lemma CountInNotice(count: nat)
    ensures CountIn(NoticeText(count)) == count % MODULUS_32
  {
    NoticeReadsBack(count);
  }

  lemma {:induction false} ForwardedAppend(a: seq<Sent>, b: seq<Sent>)
    ensures Forwarded(a + b) == Forwarded(a) + Forwarded(b)
  {
    if a == [] {
      assert a + b == b;
    } else {
      assert (a + b)[0] == a[0] && (a + b)[1..] == a[1..] + b;
      ForwardedAppend(a[1..], b);
      assert (ForwardIn(a[0]) + Forwarded(a[1..])) + Forwarded(b)
          == ForwardIn(a[0]) + (Forwarded(a[1..]) + Forwarded(b));
    }
  }

  lemma {:induction false} AnnouncedAppend(a: seq<Sent>, b: seq<Sent>)
    ensures Announced(a + b) == Announced(a) + Announced(b)
  {
    if a == [] {
      assert a + b == b;
    } else {
      assert (a + b)[1..] == a[1..] + b;
      AnnouncedAppend(a[1..], b);
    }
  }

  // ---------------------------------------------------------------- conservation

  /** No counter reaches the width of the announced number, nor wraps around. */
  predicate CountsFit(maxSkip: int, f: Filter, ms: seq<Msg>)
    decreases |ms|
  {
    ms == []
    || ((if Passes(maxSkip, f, ms[0]) then f.skips < MODULUS_32 else f.skips + 1 < MODULUS_64)
        && CountsFit(maxSkip, Next(maxSkip, f, ms[0]), ms[1..]))
  }

  /** Output of one message: what it forwards, and what it announces. */
  lemma OutputOfOne(maxSkip: int, f: Filter, m: Msg)
    ensures Forwarded(Output(maxSkip, f, m)) == if Passes(maxSkip, f, m) then [m] else []
    ensures Announced(Output(maxSkip, f, m)) == if Passes(maxSkip, f, m) then f.skips % MODULUS_32 else 0
  {
    var out := Output(maxSkip, f, m);
    if Passes(maxSkip, f, m) {
      assert Forwarded([Forward(m)]) == [m];
      assert Announced([Forward(m)]) == 0;
      if f.skips > 0 {
        assert out[1..] == [Forward(m)];
        CountInNotice(f.skips);
      }
    }
  }

  /** One message: no message is counted that was not received, and none is lost as long as the counts fit. */
  lemma ConservationStep(maxSkip: int, f: Filter, m: Msg)
    requires f.skips < MODULUS_64
    ensures var out := Output(maxSkip, f, m);
            var kept := |Forwarded(out)| + Announced(out) + Next(maxSkip, f, m).skips;
            && Next(maxSkip, f, m).skips < MODULUS_64
            && kept <= 1 + f.skips
            && (kept == 1 + f.skips <==>
                  if Passes(maxSkip, f, m) then f.skips < MODULUS_32 else f.skips + 1 < MODULUS_64)
  {
    OutputOfOne(maxSkip, f, m);
  }

  /** Conservation over any run: received = forwarded + announced + still counted, exactly if the counts fit. */
  lemma {:induction false} Conservation(maxSkip: int, f: Filter, ms: seq<Msg>)
    requires f.skips < MODULUS_64
    ensures var out := Outputs(maxSkip, f, ms);
            var kept := |Forwarded(out)| + Announced(out) + After(maxSkip, f, ms).skips;
            kept <= |ms| + f.skips && (kept == |ms| + f.skips <==> CountsFit(maxSkip, f, ms))
    decreases |ms|
  {
    if ms != [] {
      var f' := Next(maxSkip, f, ms[0]);
      ConservationStep(maxSkip, f, ms[0]);
      Conservation(maxSkip, f', ms[1..]);
      AnnouncedAppend(Output(maxSkip, f, ms[0]), Outputs(maxSkip, f', ms[1..]));
      ForwardedAppend(Output(maxSkip, f, ms[0]), Outputs(maxSkip, f', ms[1..]));
    }
  }

  /** Fewer messages than the width of an unsigned are always conserved. */
  lemma {:induction false} ShortRunsFit(maxSkip: int, f: Filter, ms: seq<Msg>)
    requires f.skips + |ms| <= MODULUS_32
    ensures CountsFit(maxSkip, f, ms)
    decreases |ms|
  {
    if ms != [] {
      ShortRunsFit(maxSkip, Next(maxSkip, f, ms[0]), ms[1..]);
    }
  }

  /** Duplicates of the last message are all counted. */
  lemma {:induction false} DuplicatesAreCounted(maxSkip: int, f: Filter, m: Msg, n: nat)
    requires !Passes(maxSkip, f, m) && f.skips + n < MODULUS_64
    ensures After(maxSkip, f, seq(n, _ => m)) == f.(skips := f.skips + n)
    ensures Outputs(maxSkip, f, seq(n, _ => m)) == []
    decreases n
  {
    if n > 0 {
      var ms := seq(n, _ => m);
      assert ms[1..] == seq(n - 1, _ => m);
      DuplicatesAreCounted(maxSkip, Next(maxSkip, f, m), m, n - 1);
    }
  }

  lemma NoticeOfNothing()
    ensures NoticeText(MODULUS_32) == "Skipped 0 duplicate messages.."
  {
    assert ToDecimal(0) == "0";
  }

  /** After 2^32 duplicates, the notice in front of the next message announces none of them. */
  lemma LongRunsAreMisannounced(maxSkip: int, m: Msg, next: Msg)
    requires m.payload != "" && m.payload != next.payload && maxSkip >= 0
    ensures var f := After(maxSkip, Next(maxSkip, INITIAL, m), seq(MODULUS_32, _ => m));
            && f.skips == MODULUS_32
            && Output(maxSkip, f, next) == [Notice(next.logger, "Skipped 0 duplicate messages.."), Forward(next)]
  {
    DuplicatesAreCounted(maxSkip, Next(maxSkip, INITIAL, m), m, MODULUS_32);
    NoticeOfNothing();
  }

  // ---------------------------------------------------------------- what is dropped

  /** The filter compares with the last forwarded message. */
  lemma {:induction false} RemembersLastForwarded(maxSkip: int, f: Filter, ms: seq<Msg>)
    ensures var sent := Forwarded(Outputs(maxSkip, f, ms));
            var end := After(maxSkip, f, ms);
            if sent == [] then end.lastTime == f.lastTime && end.lastPayload == f.lastPayload
            else end.lastTime == sent[|sent| - 1].time && end.lastPayload == sent[|sent| - 1].payload
    decreases |ms|
  {
    if ms != [] {
      var f' := Next(maxSkip, f, ms[0]);
      RemembersLastForwarded(maxSkip, f', ms[1..]);
      OutputOfOne(maxSkip, f, ms[0]);
      ForwardedAppend(Output(maxSkip, f, ms[0]), Outputs(maxSkip, f', ms[1..]));
    }
  }

  predicate Distinguishable(maxSkip: int, a: Msg, b: Msg) {
    b.time - a.time > maxSkip || b.payload != a.payload
  }

  /** Consecutive forwarded messages differ in payload or are more than the limit apart. */
  lemma {:induction false} ConsecutiveDiffer(maxSkip: int, f: Filter, ms: seq<Msg>)
    ensures var sent := Forwarded(Outputs(maxSkip, f, ms));
            && (sent != [] ==> Passes(maxSkip, f, sent[0]))
            && forall i :: 0 < i < |sent| ==> Distinguishable(maxSkip, sent[i - 1], sent[i])
    decreases |ms|
  {
    if ms != [] {
      var f' := Next(maxSkip, f, ms[0]);
      ConsecutiveDiffer(maxSkip, f', ms[1..]);
      OutputOfOne(maxSkip, f, ms[0]);
      ForwardedAppend(Output(maxSkip, f, ms[0]), Outputs(maxSkip, f', ms[1..]));
      var rest := Forwarded(Outputs(maxSkip, f', ms[1..]));
      if Passes(maxSkip, f, ms[0]) {
        var sent := Forwarded(Outputs(maxSkip, f, ms));
        assert sent == [ms[0]] + rest;
        forall i | 0 < i < |sent|
          ensures Distinguishable(maxSkip, sent[i - 1], sent[i])
        {
          assert sent[i] == rest[i - 1];
          if i > 1 {
            assert sent[i - 1] == rest[i - 2];
          }
        }
      }
    }
  }

  lemma {:induction false} AfterAppend(maxSkip: int, f: Filter, ms: seq<Msg>, m: Msg)
    ensures Outputs(maxSkip, f, ms + [m]) == Outputs(maxSkip, f, ms) + Output(maxSkip, After(maxSkip, f, ms), m)
    decreases |ms|
  {
    if ms == [] {
      assert ms + [m] == [m] && [m][1..] == [];
    } else {
      assert (ms + [m])[1..] == ms[1..] + [m];
      AfterAppend(maxSkip, Next(maxSkip, f, ms[0]), ms[1..], m);
    }
  }

  /** What is forwarded, from the received and forwarded messages alone: the next message exactly when it is not a
      repetition, within the limit, of the last one forwarded. */
  lemma ForwardedUnlessRepeated(maxSkip: int, ms: seq<Msg>, m: Msg)
    ensures var sent := Forwarded(Outputs(maxSkip, INITIAL, ms));
            var last := if sent == [] then Msg("", 0, "") else sent[|sent| - 1];
            Forwarded(Outputs(maxSkip, INITIAL, ms + [m])) ==
              if Distinguishable(maxSkip, last, m) then sent + [m] else sent
  {
    var f := After(maxSkip, INITIAL, ms);
    RemembersLastForwarded(maxSkip, INITIAL, ms);
    AfterAppend(maxSkip, INITIAL, ms, m);
    ForwardedAppend(Outputs(maxSkip, INITIAL, ms), Output(maxSkip, f, m));
    OutputOfOne(maxSkip, f, m);
  }
}
