/** The formatter object with its caches, against a formatter that recomputes the calendar time for every message. */
module PatternFormatter {
  import opened Decimal
  import opened LogFields
  import opened PatternCompiler
  import opened PatternRender

  /** The calendar for a number of epoch seconds (local or GMT, fixed for a formatter). The C library never returns the
      blank value: a real date has a day of the month. */
  type Clock = int -> Tm

  ghost predicate RealClock(clock: Clock) {
    forall secs :: clock(secs).mday >= 1
  }

  datatype Config = Config(clock: Clock, eol: string, custom: set<char>, env: Env)

  /** The mutable part of pattern_formatter. */
  datatype State = State(
    formatters: seq<Formatter>, states: seq<FlagState>, needTime: bool, cachedTm: Tm, lastSecs: int)

  predicate ValidState(s: State) {
    |s.states| == |s.formatters| && WellFormed(s.formatters)
  }

  datatype Event =
    | FormatMsg(msg: Msg)
    | SetPattern(pattern: string, now: int)
    | RequireLocaltime        // need_localtime(true)

  const NO_LINE: Line := Line("", 0, 0, false)

  function Compiled(pattern: string, now: int, c: Config, cachedTm: Tm, lastSecs: int): (s: State)
    ensures ValidState(s)
  {
    CompileWellFormed(pattern, "", c.custom);
    var fs := Compile(pattern, "", c.custom);
    State(fs, FreshStates(fs, now), AnyNeedsTime(fs), cachedTm, lastSecs)
  }

  /** A new formatter: the calendar cache is blank and stands for second 0. */
  function NewFormatter(pattern: string, now: int, c: Config): (s: State)
    ensures ValidState(s)
  {
    Compiled(pattern, now, c, BLANK_TM, 0)
  }

  /** The calendar cache is refreshed when the second differs from that of the last message. */
  function Refreshed(s: State, msg: Msg, c: Config): State {
    if s.needTime && Secs(msg.time) != s.lastSecs
    then s.(cachedTm := c.clock(Secs(msg.time)), lastSecs := Secs(msg.time))
    else s
  }

  function Next(s: State, e: Event, c: Config): (r: State)
    requires ValidState(s)
    ensures ValidState(r)
  {
    match e
    case FormatMsg(msg) =>
      var refreshed := Refreshed(s, msg, c);
      refreshed.(states := NextStates(s.states, msg, refreshed.cachedTm))
    case SetPattern(pattern, now) => Compiled(pattern, now, c, s.cachedTm, s.lastSecs)
    case RequireLocaltime => s.(needTime := true)
  }

  function AddEol(line: Line, eol: string): Line {
    if line.failed then line else line.(text := line.text + eol)
  }

  /** What formatting a message adds to a line. */
  function OutputOn(s: State, msg: Msg, c: Config, line: Line): Line
    requires ValidState(s)
  {
    AddEol(RunAll(s.formatters, s.states, msg, Refreshed(s, msg, c).cachedTm, c.env, true, line), c.eol)
  }

  function Output(s: State, msg: Msg, c: Config): Line
    requires ValidState(s)
  {
    OutputOn(s, msg, c, NO_LINE)
  }

  function Outputs(s: State, events: seq<Event>, c: Config): seq<Line>
    requires ValidState(s)
    decreases |events|
  {
    if events == [] then []
    else (if events[0].FormatMsg? then [Output(s, events[0].msg, c)] else [])
         + Outputs(Next(s, events[0], c), events[1..], c)
  }

  // ---------------------------------------------------------------- the uncached formatter

  /** No calendar cache and no date cache: only the formatters and what %u, %i, %o, %O and %z remember. */
  datatype Uncached = Uncached(formatters: seq<Formatter>, states: seq<FlagState>)

  predicate ValidPlain(s: Uncached) {
    |s.states| == |s.formatters| && WellFormed(s.formatters)
  }

  function PlainNext(s: Uncached, e: Event, c: Config): (r: Uncached)
    requires ValidPlain(s)
    ensures ValidPlain(r)
  {
    match e
    case FormatMsg(msg) => s.(states := NextStates(s.states, msg, c.clock(Secs(msg.time))))
    case SetPattern(pattern, now) =>
      var t := Compiled(pattern, now, c, BLANK_TM, 0); Uncached(t.formatters, t.states)
    case RequireLocaltime => s
  }

  function PlainOutput(s: Uncached, msg: Msg, c: Config): Line
    requires ValidPlain(s)
  {
    AddEol(RunAll(s.formatters, s.states, msg, c.clock(Secs(msg.time)), c.env, false, NO_LINE), c.eol)
  }

  function PlainOutputs(s: Uncached, events: seq<Event>, c: Config): seq<Line>
    requires ValidPlain(s)
    decreases |events|
  {
    if events == [] then []
    else (if events[0].FormatMsg? then [PlainOutput(s, events[0].msg, c)] else [])
         + PlainOutputs(PlainNext(s, events[0], c), events[1..], c)
  }

  // ---------------------------------------------------------------- when the calendar cache is right

  /** The cache holds the calendar of its second, or it is still blank. */
  ghost predicate CacheInv(s: State, c: Config) {
    s.cachedTm == c.clock(s.lastSecs) || (s.lastSecs == 0 && s.cachedTm == BLANK_TM)
  }

  /** The cache has been filled. */
  ghost predicate Warm(s: State, c: Config) {
    s.cachedTm == c.clock(s.lastSecs)
  }

  /** What a caller knows of a formatter: whether its pattern needs the calendar time and has user-defined flags, and
      whether a message outside second 0 was formatted while the time was needed. */
  datatype History = History(needTime: bool, custom: bool, filled: bool)

  predicate HasCustom(fs: seq<Formatter>) {
    exists i :: 0 <= i < |fs| && fs[i].Custom?
  }

  /** The history of a new formatter. */
  function Beginning(pattern: string, c: Config): History {
    var fs := Compile(pattern, "", c.custom);
    History(AnyNeedsTime(fs), HasCustom(fs), false)
  }

  function Track(h: History, e: Event, c: Config): History {
    match e
    case FormatMsg(msg) => h.(filled := h.filled || (h.needTime && Secs(msg.time) != 0))
    case SetPattern(pattern, _) => Beginning(pattern, c).(filled := h.filled)
    case RequireLocaltime => h.(needTime := true)
  }

  function TrackAll(h: History, events: seq<Event>, c: Config): History
    decreases |events|
  {
    if events == [] then h else TrackAll(Track(h, events[0], c), events[1..], c)
  }

  function After(s: State, events: seq<Event>, c: Config): (r: State)
    requires ValidState(s)
    ensures ValidState(r)
    decreases |events|
  {
    if events == [] then s else After(Next(s, events[0], c), events[1..], c)
  }

  /** The history describes the state: in particular the cache is filled exactly when the history says so. */
  ghost predicate Describes(h: History, s: State, c: Config) {
    && CacheInv(s, c)
    && h.needTime == s.needTime && h.custom == HasCustom(s.formatters) && (h.filled <==> Warm(s, c))
  }

  lemma DescribesStep(h: History, s: State, e: Event, c: Config)
    requires RealClock(c.clock) && ValidState(s) && Describes(h, s, c)
    ensures Describes(Track(h, e, c), Next(s, e, c), c)
  {
  }

  lemma {:induction false} DescribesEver(h: History, s: State, events: seq<Event>, c: Config)
    requires RealClock(c.clock) && ValidState(s) && Describes(h, s, c)
    ensures Describes(TrackAll(h, events, c), After(s, events, c), c)
    decreases |events|
  {
    if events != [] {
      DescribesStep(h, s, events[0], c);
      DescribesEver(Track(h, events[0], c), Next(s, events[0], c), events[1..], c);
    }
  }

  lemma NewIsDescribed(pattern: string, now: int, c: Config)
    requires RealClock(c.clock)
    ensures Describes(Beginning(pattern, c), NewFormatter(pattern, now, c), c)
  {
  }

  /** The cache is filled exactly when, some time before, a message outside second 0 was formatted while the pattern
      needed the calendar time. */
  lemma WarmExactly(pattern: string, now: int, events: seq<Event>, c: Config)
    requires RealClock(c.clock)
    ensures Warm(After(NewFormatter(pattern, now, c), events, c), c)
            <==> TrackAll(Beginning(pattern, c), events, c).filled
  {
    NewIsDescribed(pattern, now, c);
    DescribesEver(Beginning(pattern, c), NewFormatter(pattern, now, c), events, c);
  }

  /** `filled` in words: some event formats a message outside second 0 while the time is needed. */
  lemma {:induction false} FilledMeans(h: History, events: seq<Event>, c: Config)
    ensures TrackAll(h, events, c).filled <==>
              h.filled || exists i :: 0 <= i < |events| && events[i].FormatMsg?
                                      && Secs(events[i].msg.time) != 0 && TrackAll(h, events[..i], c).needTime
    decreases |events|
  {
    if events != [] {
      FilledMeans(Track(h, events[0], c), events[1..], c);
      forall i | 0 < i < |events|
        ensures TrackAll(h, events[..i], c) == TrackAll(Track(h, events[0], c), events[1..][..i - 1], c)
      {
        assert events[..i][1..] == events[1..][..i - 1];
      }
      FilledUnfold(h, events, c);
    }
  }

  lemma FilledUnfold(h: History, events: seq<Event>, c: Config)
    requires events != []
    requires forall i :: 0 < i < |events| ==>
               TrackAll(h, events[..i], c) == TrackAll(Track(h, events[0], c), events[1..][..i - 1], c)
    ensures (exists i :: 0 <= i < |events| && events[i].FormatMsg?
                         && Secs(events[i].msg.time) != 0 && TrackAll(h, events[..i], c).needTime)
            <==> (events[0].FormatMsg? && Secs(events[0].msg.time) != 0 && h.needTime)
                 || exists i :: 0 <= i < |events[1..]| && events[1..][i].FormatMsg?
                                && Secs(events[1..][i].msg.time) != 0
                                && TrackAll(Track(h, events[0], c), events[1..][..i], c).needTime
  {
    var rest := events[1..];
    if i :| 0 <= i < |rest| && rest[i].FormatMsg? && Secs(rest[i].msg.time) != 0
            && TrackAll(Track(h, events[0], c), rest[..i], c).needTime {
      assert events[i + 1] == rest[i];
      assert TrackAll(h, events[..i + 1], c) == TrackAll(Track(h, events[0], c), rest[..i], c);
    }
    if i :| 0 <= i < |events| && events[i].FormatMsg? && Secs(events[i].msg.time) != 0
            && TrackAll(h, events[..i], c).needTime {
      assert events[..0] == [];
      if i > 0 {
        assert rest[i - 1] == events[i];
      }
    }
  }

  /** For a pattern that needs the time: after any use of a new formatter, the formatters are given the calendar of the
      message's own second exactly when that is not second 0, or a message outside second 0 was formatted before while
      the time was needed. */
  lemma CalendarIsRightExactly(pattern: string, now: int, events: seq<Event>, msg: Msg, c: Config)
    requires RealClock(c.clock) && TrackAll(Beginning(pattern, c), events, c).needTime
    ensures var s := After(NewFormatter(pattern, now, c), events, c);
            Refreshed(s, msg, c).cachedTm == c.clock(Secs(msg.time))
            <==> Secs(msg.time) != 0 || TrackAll(Beginning(pattern, c), events, c).filled
  {
    NewIsDescribed(pattern, now, c);
    DescribesEver(Beginning(pattern, c), NewFormatter(pattern, now, c), events, c);
  }

  /** The blank start matters: a first message in second 0 shows day 00. */
  lemma SecondZeroShowsBlankDate(pattern: string, flag: char, c: Config, msg: Msg)
    requires pattern == ['%', flag] && flag == 'd' && flag !in c.custom
    requires RealClock(c.clock) && Secs(msg.time) == 0 && c.clock(0).mday == 1
    ensures var s := NewFormatter(pattern, 0, c);
            && Output(s, msg, c).text == "00" + c.eol
            && PlainOutput(Uncached(s.formatters, s.states), msg, c).text == "01" + c.eol
  {
    CompileOneFlag(pattern, flag, c.custom);
    DayFlag(flag, c.custom);
    DayInSecondZero(pattern, c, msg);
  }

  lemma DayFlag(flag: char, custom: set<char>)
    requires flag == 'd' && flag !in custom
    ensures HandleFlag(flag, NO_PADDING, custom) == [Field('d', NO_PADDING)]
  {
  }

  lemma DayInSecondZero(pattern: string, c: Config, msg: Msg)
    requires Compile(pattern, "", c.custom) == [Field('d', NO_PADDING)]
    requires RealClock(c.clock) && Secs(msg.time) == 0 && c.clock(0).mday == 1
    ensures var s := NewFormatter(pattern, 0, c);
            && Output(s, msg, c).text == "00" + c.eol
            && PlainOutput(Uncached(s.formatters, s.states), msg, c).text == "01" + c.eol
  {
    var s := NewFormatter(pattern, 0, c);
    OneField(s.states, msg, BLANK_TM, c, true);
    OneField(s.states, msg, c.clock(0), c, false);
    assert NeedsTime(s.formatters[0]);
  }

  lemma OneField(sts: seq<FlagState>, msg: Msg, t: Tm, c: Config, cached: bool)
    requires |sts| == 1
    ensures RunAll([Field('d', NO_PADDING)], sts, msg, t, c.env, cached, NO_LINE).text == Pad2(t.mday)
  {
    var fs := [Field('d', NO_PADDING)];
    var one := RunFlag(fs[0], sts[0], msg, t, c.env, cached, NO_LINE);
    assert fs[1..] == [] && sts[1..] == [];
    assert one.text == Pad2(t.mday);
  }

  // ---------------------------------------------------------------- refinement

  /** Corresponding flag states: equal, except that a filled date cache must hold the date of its second. */
  ghost predicate SameMemory(f: Formatter, st: FlagState, pst: FlagState, c: Config) {
    if f.Full? then st.DateCache? && (st.text == "" || st.text == DateText(c.clock(st.secs)))
    else st == pst && !st.DateCache?
  }

  ghost predicate Simulates(s: State, p: Uncached, c: Config) {
    && ValidState(s) && ValidPlain(p)
    && s.formatters == p.formatters
    && (forall i :: 0 <= i < |s.states| ==> SameMemory(s.formatters[i], s.states[i], p.states[i], c))
    && (s.needTime || !AnyNeedsTime(s.formatters))
    && CacheInv(s, c)
  }

  /** The condition of `CalendarIsRightExactly`; a pattern that does not need the time, and has no user-defined flag,
      does not look at it. */
  predicate Safe(h: History, msg: Msg) {
    if h.needTime then Secs(msg.time) != 0 || h.filled else !h.custom
  }

  predicate AllSafe(h: History, events: seq<Event>, c: Config)
    decreases |events|
  {
    events == [] ||
    ((events[0].FormatMsg? ==> Safe(h, events[0].msg)) && AllSafe(Track(h, events[0], c), events[1..], c))
  }

  /** One formatter: same text and same memory afterwards. */
  lemma SameFlag(f: Formatter, st: FlagState, pst: FlagState, msg: Msg, t: Tm, u: Tm, c: Config, line: Line)
    requires SameMemory(f, st, pst, c) && (f.Field? ==> IsFieldFlag(f.flag))
    requires u == c.clock(Secs(msg.time)) && (t == u || (!NeedsTime(f) && !f.Custom?))
    requires st.Offset? ==> NeedsTime(f)
    ensures RunFlag(f, st, msg, t, c.env, true, line) == RunFlag(f, pst, msg, u, c.env, false, line)
    ensures SameMemory(f, NextState(st, msg, t), NextState(pst, msg, u), c)
  {
    if f.Full? {
      assert NextState(st, msg, t).text == DateText(u);
    }
  }

  /** Only %z keeps an offset. */
  ghost predicate OffsetsAreZ(fs: seq<Formatter>, sts: seq<FlagState>)
    requires |sts| == |fs|
  {
    forall i :: 0 <= i < |fs| && sts[i].Offset? ==> NeedsTime(fs[i])
  }

  lemma {:induction false} SameRun(
      fs: seq<Formatter>, sts: seq<FlagState>, psts: seq<FlagState>, msg: Msg, t: Tm, u: Tm, c: Config, line: Line)
    requires |fs| == |sts| == |psts| && WellFormed(fs) && OffsetsAreZ(fs, sts)
    requires forall i :: 0 <= i < |fs| ==> SameMemory(fs[i], sts[i], psts[i], c)
    requires u == c.clock(Secs(msg.time))
    requires t == u || forall i :: 0 <= i < |fs| ==> !NeedsTime(fs[i]) && !fs[i].Custom?
    ensures RunAll(fs, sts, msg, t, c.env, true, line) == RunAll(fs, psts, msg, u, c.env, false, line)
    ensures forall i :: 0 <= i < |fs| ==>
              SameMemory(fs[i], NextStates(sts, msg, t)[i], NextStates(psts, msg, u)[i], c)
    decreases |fs|
  {
    if fs != [] {
      SameFlag(fs[0], sts[0], psts[0], msg, t, u, c, line);
      SameRun(fs[1..], sts[1..], psts[1..], msg, t, u, c, RunFlag(fs[0], sts[0], msg, t, c.env, true, line));
      forall i | 0 <= i < |fs|
        ensures SameMemory(fs[i], NextStates(sts, msg, t)[i], NextStates(psts, msg, u)[i], c)
      {
        if i > 0 {
          assert NextStates(sts[1..], msg, t)[i - 1] == NextStates(sts, msg, t)[i];
          assert NextStates(psts[1..], msg, u)[i - 1] == NextStates(psts, msg, u)[i];
          assert fs[1..][i - 1] == fs[i];
        }
      }
    }
  }

  lemma FreshSimulates(pattern: string, now: int, c: Config, cachedTm: Tm, lastSecs: int)
    requires cachedTm == c.clock(lastSecs) || (lastSecs == 0 && cachedTm == BLANK_TM)
    ensures var s := Compiled(pattern, now, c, cachedTm, lastSecs);
            Simulates(s, Uncached(s.formatters, s.states), c) && OffsetsAreZ(s.formatters, s.states)
  {
  }

  lemma SimulationStep(h: History, s: State, p: Uncached, e: Event, c: Config)
    requires Simulates(s, p, c) && OffsetsAreZ(s.formatters, s.states) && Describes(h, s, c)
    requires e.FormatMsg? ==> Safe(h, e.msg)
    ensures Simulates(Next(s, e, c), PlainNext(p, e, c), c)
    ensures OffsetsAreZ(Next(s, e, c).formatters, Next(s, e, c).states)
    ensures e.FormatMsg? ==> Output(s, e.msg, c) == PlainOutput(p, e.msg, c)
  {
    match e
    case FormatMsg(msg) =>
      var refreshed := Refreshed(s, msg, c);
      SameRun(s.formatters, s.states, p.states, msg, refreshed.cachedTm, c.clock(Secs(msg.time)), c, NO_LINE);
    case SetPattern(pattern, now) => FreshSimulates(pattern, now, c, s.cachedTm, s.lastSecs);
    case RequireLocaltime =>
  }

  lemma {:induction false} SimulationEver(h: History, s: State, p: Uncached, events: seq<Event>, c: Config)
    requires RealClock(c.clock) && Simulates(s, p, c) && OffsetsAreZ(s.formatters, s.states) && Describes(h, s, c)
    requires AllSafe(h, events, c)
    ensures Outputs(s, events, c) == PlainOutputs(p, events, c)
    decreases |events|
  {
    if events != [] {
      SimulationStep(h, s, p, events[0], c);
      DescribesStep(h, s, events[0], c);
      SimulationEver(Track(h, events[0], c), Next(s, events[0], c), PlainNext(p, events[0], c), events[1..], c);
    }
  }

  function PlainAfter(p: Uncached, events: seq<Event>, c: Config): (r: Uncached)
    requires ValidPlain(p)
    ensures ValidPlain(r)
    decreases |events|
  {
    if events == [] then p else PlainAfter(PlainNext(p, events[0], c), events[1..], c)
  }

  /** The states stay in step. */
  lemma {:induction false} SimulationAfter(h: History, s: State, p: Uncached, events: seq<Event>, c: Config)
    requires RealClock(c.clock) && Simulates(s, p, c) && OffsetsAreZ(s.formatters, s.states) && Describes(h, s, c)
    requires AllSafe(h, events, c)
    ensures var r := After(s, events, c);
            && Simulates(r, PlainAfter(p, events, c), c) && OffsetsAreZ(r.formatters, r.states)
            && Describes(TrackAll(h, events, c), r, c)
    decreases |events|
  {
    if events != [] {
      SimulationStep(h, s, p, events[0], c);
      DescribesStep(h, s, events[0], c);
      SimulationAfter(Track(h, events[0], c), Next(s, events[0], c), PlainNext(p, events[0], c), events[1..], c);
    }
  }

  /** Over any sequence of messages and pattern changes, with time going forward or back, the two caches of a new
      formatter are invisible, provided no message in second 0 comes before every message outside it, and no
      user-defined flag stands in a pattern that does not need the time. */
  lemma CachesAreInvisible(pattern: string, now: int, events: seq<Event>, c: Config)
    requires RealClock(c.clock) && AllSafe(Beginning(pattern, c), events, c)
    ensures var s := NewFormatter(pattern, now, c);
            Outputs(s, events, c) == PlainOutputs(Uncached(s.formatters, s.states), events, c)
  {
    var s := NewFormatter(pattern, now, c);
    FreshSimulates(pattern, now, c, BLANK_TM, 0);
    NewIsDescribed(pattern, now, c);
    SimulationEver(Beginning(pattern, c), s, Uncached(s.formatters, s.states), events, c);
  }

  /** A pattern asks for the calendar time if it has a user-defined flag. */
  predicate TimedCustom(pattern: string, c: Config) {
    HasCustom(Compile(pattern, "", c.custom)) ==> AnyNeedsTime(Compile(pattern, "", c.custom))
  }

  lemma {:induction false} NonZeroSecondsAreSafe(h: History, events: seq<Event>, c: Config)
    requires h.custom ==> h.needTime
    requires forall i :: 0 <= i < |events| && events[i].FormatMsg? ==> Secs(events[i].msg.time) != 0
    requires forall i :: 0 <= i < |events| && events[i].SetPattern? ==> TimedCustom(events[i].pattern, c)
    ensures AllSafe(h, events, c)
    decreases |events|
  {
    if events != [] {
      NonZeroSecondsAreSafe(Track(h, events[0], c), events[1..], c);
    }
  }

  /** The corollary for messages outside second 0: every output equals the uncached one. */
  lemma FormatterRefinesUncached(pattern: string, now: int, events: seq<Event>, c: Config)
    requires RealClock(c.clock) && TimedCustom(pattern, c)
    requires forall i :: 0 <= i < |events| && events[i].FormatMsg? ==> Secs(events[i].msg.time) != 0
    requires forall i :: 0 <= i < |events| && events[i].SetPattern? ==> TimedCustom(events[i].pattern, c)
    ensures var s := NewFormatter(pattern, now, c);
            Outputs(s, events, c) == PlainOutputs(Uncached(s.formatters, s.states), events, c)
  {
    NonZeroSecondsAreSafe(Beginning(pattern, c), events, c);
    CachesAreInvisible(pattern, now, events, c);
  }

  /** A pattern without user-defined flags always meets the condition. */
  lemma BuiltInIsTimed(pattern: string, c: Config)
    requires c.custom == {}
    ensures TimedCustom(pattern, c)
  {
    NoCustomFlags(pattern, "");
  }

  lemma {:induction false} NoCustomFlags(p: string, pending: string)
    ensures forall i :: 0 <= i < |Compile(p, pending, {})| ==> !Compile(p, pending, {})[i].Custom?
    decreases |p|
  {
    if p != "" {
      if p[0] != '%' {
        NoCustomFlags(p[1..], pending + [p[0]]);
      } else if HandlePadspec(p[1..]).rest != "" {
        NoCustomFlags(HandlePadspec(p[1..]).rest[1..], "");
      }
    }
  }

  /** A pattern of one user-defined flag does not ask for the calendar time, and shows the blank one for every message. */
  lemma UserFlagSeesBlankTime(pattern: string, flag: char, now: int, msg: Msg, c: Config)
    requires pattern == ['%', flag] && flag in c.custom && !IsDigit(flag) && flag != '-' && flag != '='
    ensures Output(NewFormatter(pattern, now, c), msg, c).text
            == c.env.customText(flag, NO_PADDING, msg, BLANK_TM) + c.eol
  {
    CompileOneFlag(pattern, flag, c.custom);
    OnlyCustom(pattern, flag, now, msg, c);
  }

  lemma OnlyCustom(pattern: string, flag: char, now: int, msg: Msg, c: Config)
    requires Compile(pattern, "", c.custom) == [Custom(flag, NO_PADDING)]
    ensures Output(NewFormatter(pattern, now, c), msg, c).text
            == c.env.customText(flag, NO_PADDING, msg, BLANK_TM) + c.eol
  {
    OutputOfCustom(NewFormatter(pattern, now, c), flag, msg, c);
  }

  lemma PadspecOfFlag(flag: char)
    requires !IsDigit(flag) && flag != '-' && flag != '='
    ensures HandlePadspec([flag]) == PadSpec(NO_PADDING, [flag])
  {
  }

  lemma CompileOneFlag(p: string, flag: char, custom: set<char>)
    requires p == ['%', flag] && !IsDigit(flag) && flag != '-' && flag != '='
    ensures Compile(p, "", custom) == HandleFlag(flag, NO_PADDING, custom)
  {
    assert p[1..] == [flag];
    PadspecOfFlag(flag);
    CompileAtPercent([], p, "", custom);
    assert [] + Compile(p, "", custom) == Compile(p, "", custom);
    assert [flag][1..] == "";
    CompileNothing(custom);
  }

  lemma CompileNothing(custom: set<char>)
    ensures Compile("", "", custom) == []
  {
  }

  lemma OutputOfCustom(s: State, flag: char, msg: Msg, c: Config)
    requires ValidState(s) && s.formatters == [Custom(flag, NO_PADDING)] && !s.needTime && s.cachedTm == BLANK_TM
    ensures Output(s, msg, c).text == c.env.customText(flag, NO_PADDING, msg, BLANK_TM) + c.eol
  {
    OneCustom(s.states, flag, msg, BLANK_TM, c);
  }

  lemma OneCustom(sts: seq<FlagState>, flag: char, msg: Msg, t: Tm, c: Config)
    requires |sts| == 1
    ensures RunAll([Custom(flag, NO_PADDING)], sts, msg, t, c.env, true, NO_LINE)
            == Line(c.env.customText(flag, NO_PADDING, msg, t), 0, 0, false)
  {
    var fs := [Custom(flag, NO_PADDING)];
    var one := RunFlag(fs[0], sts[0], msg, t, c.env, true, NO_LINE);
    assert fs[1..] == [] && sts[1..] == [];
    assert one == Line(c.env.customText(flag, NO_PADDING, msg, t), 0, 0, false);
  }

  // ---------------------------------------------------------------- the UTC offset

  /** What %z remembers after a series of messages. */
  function OffsetAfter(msgs: seq<Msg>, c: Config): (st: FlagState)
    ensures st.Offset?
  {
    if msgs == [] then Offset(0, 0)
    else
      var last := msgs[|msgs| - 1];
      NextState(OffsetAfter(msgs[..|msgs| - 1], c), last, c.clock(Secs(last.time)))
  }

  function OffsetAt(msg: Msg, c: Config): FlagState {
    Offset(msg.time, TruncDiv(c.clock(Secs(msg.time)).gmtoff, 60))
  }

  /** The offset shown for a message is that of a message of the series which it follows by less than ten seconds, or,
      less than ten seconds after the epoch, zero. */
  lemma {:induction false} OffsetIsRecent(msgs: seq<Msg>, c: Config)
    requires msgs != []
    ensures var front, last := msgs[..|msgs| - 1], msgs[|msgs| - 1];
            var s := FieldText('z', OffsetAfter(front, c), last, c.clock(Secs(last.time)), c.env);
            || (s == OffsetText(0) && last.time < 10 * 1_000_000_000)
            || exists k :: 0 <= k < |msgs| && s == OffsetText(MinutesAt(msgs[k], c))
                           && last.time - msgs[k].time < 10 * 1_000_000_000
  {
    var before, last := msgs[..|msgs| - 1], msgs[|msgs| - 1];
    OffsetComesFrom(before, c);
    var st := OffsetAfter(before, c);
    OffsetField(st, last, c);
    if last.time - st.updated >= TEN_SECONDS {
      assert MinutesAt(msgs[|msgs| - 1], c) == NextState(st, last, c.clock(Secs(last.time))).minutes;
    } else if st != Offset(0, 0) {
      var k :| 0 <= k < |before| && st == OffsetAt(before[k], c);
      assert msgs[k] == before[k] && NextState(st, last, c.clock(Secs(last.time))).minutes == MinutesAt(msgs[k], c);
    }
  }

  /** The UTC offset at the time of a message, in minutes. */
  function MinutesAt(msg: Msg, c: Config): int {
    TruncDiv(c.clock(Secs(msg.time)).gmtoff, 60)
  }

  lemma OffsetField(st: FlagState, msg: Msg, c: Config)
    requires st.Offset?
    ensures FieldText('z', st, msg, c.clock(Secs(msg.time)), c.env)
            == OffsetText(NextState(st, msg, c.clock(Secs(msg.time))).minutes)
  {
  }

  lemma {:induction false} OffsetComesFrom(msgs: seq<Msg>, c: Config)
    ensures OffsetAfter(msgs, c) == Offset(0, 0)
            || exists k :: 0 <= k < |msgs| && OffsetAfter(msgs, c) == OffsetAt(msgs[k], c)
  {
    if msgs != [] {
      var before := msgs[..|msgs| - 1];
      OffsetComesFrom(before, c);
      var st := OffsetAfter(before, c);
      if OffsetAfter(msgs, c) != st {
        assert OffsetAfter(msgs, c) == OffsetAt(msgs[|msgs| - 1], c);
      } else if st != Offset(0, 0) {
        var k :| 0 <= k < |before| && st == OffsetAt(before[k], c);
        assert msgs[k] == before[k];
      }
    }
  }

  // ---------------------------------------------------------------- literal text round trip

  function Doubled(t: string): string {
    if t == "" then "" else (if t[0] == '%' then "%%" else [t[0]]) + Doubled(t[1..])
  }

  lemma CompileLiteral(c: char, p: string, pending: string, custom: set<char>)
    requires c != '%'
    ensures Compile([c] + p, pending, custom) == Compile(p, pending + [c], custom)
  {
    assert ([c] + p)[1..] == p;
  }

  lemma CompilePercent(p: string, pending: string, custom: set<char>)
    requires '%' !in custom
    ensures Compile("%%" + p, pending, custom) == Flush(pending) + ([Percent] + Compile(p, "", custom))
  {
    var q := "%%" + p;
    assert HandlePadspec(q[1..]) == PadSpec(NO_PADDING, q[1..]);
    assert q[1..][0] == '%' && q[1..][1..] == p;
  }

  lemma Assoc(a: string, b: string, c: string, d: string)
    ensures a + (b + c) + d == a + b + (c + d)
    ensures a + b + c + "" + d == a + b + (c + d)
  {
  }

  /** Doubling every '%' makes any text a pattern that shows it. */
  lemma {:induction false} DoubledShowsText(
      t: string, pending: string, sts: seq<FlagState>, msg: Msg, tm: Tm, env: Env, custom: set<char>, line: Line)
    requires '%' !in custom && !line.failed && |sts| == |Compile(Doubled(t), pending, custom)|
    ensures WellFormed(Compile(Doubled(t), pending, custom))
    ensures RunAll(Compile(Doubled(t), pending, custom), sts, msg, tm, env, true, line)
            == line.(text := line.text + pending + t)
    decreases |t|
  {
    CompileWellFormed(Doubled(t), pending, custom);
    if t == "" {
      FlushShows(pending, sts, msg, tm, env, line);
      assert line.text + pending + t == line.text + pending;
    } else {
      var c, d := [t[0]], Doubled(t[1..]);
      assert t == c + t[1..];
      if t[0] != '%' {
        CompileLiteral(t[0], d, pending, custom);
        DoubledShowsText(t[1..], pending + c, sts, msg, tm, env, custom, line);
        Assoc(line.text, pending, c, t[1..]);
      } else {
        CompilePercent(d, pending, custom);
        DoubledPercent(t, pending, sts, msg, tm, env, custom, line);
      }
    }
  }

  lemma {:induction false} DoubledPercent(
      t: string, pending: string, sts: seq<FlagState>, msg: Msg, tm: Tm, env: Env, custom: set<char>, line: Line)
    requires '%' !in custom && !line.failed && t != "" && t[0] == '%'
    requires |sts| == |Flush(pending)| + 1 + |Compile(Doubled(t[1..]), "", custom)|
    ensures var fs := Flush(pending) + ([Percent] + Compile(Doubled(t[1..]), "", custom));
            && WellFormed(fs)
            && RunAll(fs, sts, msg, tm, env, true, line) == line.(text := line.text + pending + t)
    decreases |t|, 0
  {
    var rest, sts' := Compile(Doubled(t[1..]), "", custom), sts[|Flush(pending)| + 1..];
    var percent := line.(text := line.text + pending + "%");
    CompileWellFormed(Doubled(t[1..]), "", custom);
    PercentShows(pending, rest, sts, msg, tm, env, line);
    DoubledShowsText(t[1..], "", sts', msg, tm, env, custom, percent);
    Assoc(line.text, pending, "%", t[1..]);
    assert t == "%" + t[1..];
  }

  lemma PercentShows(
      pending: string, rest: seq<Formatter>, sts: seq<FlagState>, msg: Msg, tm: Tm, env: Env, line: Line)
    requires !line.failed && WellFormed(rest) && |sts| == |Flush(pending)| + 1 + |rest|
    ensures var fs := Flush(pending) + ([Percent] + rest);
            WellFormed(fs) &&
            RunAll(fs, sts, msg, tm, env, true, line)
            == RunAll(rest, sts[|Flush(pending)| + 1..], msg, tm, env, true,
                      line.(text := line.text + pending + "%"))
  {
    var fs := Flush(pending) + ([Percent] + rest);
    var k := |Flush(pending)|;
    assert fs[..k] == Flush(pending) && fs[k..] == [Percent] + rest && fs[k..][1..] == rest;
    RunAllSplit(fs, sts, k, msg, tm, env, true, line);
    FlushShows(pending, sts[..k], msg, tm, env, line);
    assert sts[k..][1..] == sts[k + 1..];
  }

  lemma FlushShows(pending: string, sts: seq<FlagState>, msg: Msg, tm: Tm, env: Env, line: Line)
    requires !line.failed && |sts| == |Flush(pending)|
    ensures RunAll(Flush(pending), sts, msg, tm, env, true, line) == line.(text := line.text + pending)
  {
    var fs := Flush(pending);
    if pending == "" {
      assert line.text + "" == line.text;
    } else {
      assert fs[1..] == [] && sts[1..] == [];
    }
  }

  /** The escaped text, compiled and formatted, is the text followed by the end of line. */
  lemma PatternRoundTrip(t: string, now: int, msg: Msg, c: Config)
    requires '%' !in c.custom
    ensures Output(NewFormatter(Doubled(t), now, c), msg, c).text == t + c.eol
  {
    var s := NewFormatter(Doubled(t), now, c);
    DoubledShowsText(t, "", s.states, msg, Refreshed(s, msg, c).cachedTm, c.env, c.custom, NO_LINE);
    assert "" + "" + t == t;
  }
}
