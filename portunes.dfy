/**
 * Portunes: a battery of named exams run on their own intervals, with a
 * bounded, most-recent-first history of results per exam and a pre-flight
 * validator that runs before any exam is started.
 *
 * Foreign collaborators are parameters: the router's set of route names
 * (`HasRoute`), `time.ParseDuration` as a predicate `validDuration` on the
 * interval text, the handler's outcome per tick, and timestamps as opaque
 * integers supplied by the caller.
 */
module Portunes {
  import opened Wrappers

  /** The history length used when a battery leaves HistoryLen unset (zero). */
  const DefaultHistoryLen: int := 100

  /** The message of the record written when an exam is loaded. */
  const NotRunMessage: string := "Exam loaded, but not run yet."

  datatype Outcome = Pass | Fail | Unknown

  /** The string form of an outcome, as Go's `Outcome` string constants. */
  function OutcomeName(o: Outcome): string
  {
    match o
    case Pass => "pass"
    case Fail => "fail"
    case Unknown => "unknown"
  }

  /** One recorded run of an exam; `date` is an opaque timestamp. */
  datatype Result = Result(exam: string, date: int, outcome: Outcome, message: string)

  datatype Exam = Exam(name: string, interval: string, depends: seq<string>, notify: seq<string>)

  datatype Notifier = Notifier(name: string, config: map<string, string>)

  datatype Battery = Battery(exams: seq<Exam>, notifiers: seq<Notifier>, historyLen: int)

  // ---------------------------------------------------------------------------
  // The bounded history, on values
  // ---------------------------------------------------------------------------

  /**
   * One `Add` on one exam's list: push the result onto the front, then drop
   * the back element once the length exceeds `max` (at most one element is
   * dropped, as `Remove(Back())` does).
   */
  function Pushed(h: seq<Result>, r: Result, max: int): (p: seq<Result>)
    ensures |h| <= max ==> p == ([r] + h)[..Min(|h| + 1, max)]
    ensures |h| <= max ==> |p| == Min(|h| + 1, max)
    ensures |h| < max ==> p == [r] + h
    ensures 1 <= max && |h| <= max ==> p[0] == r
    ensures 1 <= max && |h| == max ==> p == [r] + h[..|h| - 1]
  {
    var l := [r] + h;
    if |l| > max then l[..|l| - 1] else l
  }

  /** The list left by adding `rs[0]`, then `rs[1]`, ..., onto `h`. */
  function AddAll(h: seq<Result>, rs: seq<Result>, max: int): seq<Result>
    decreases |rs|
  {
    if rs == [] then h else Pushed(AddAll(h, rs[..|rs| - 1], max), rs[|rs| - 1], max)
  }

  /** One more add extends AddAll by one Pushed step. */
  lemma AddAllSnoc(h: seq<Result>, rs: seq<Result>, r: Result, max: int)
    ensures AddAll(h, rs + [r], max) == Pushed(AddAll(h, rs, max), r, max)
  {
    assert (rs + [r])[..|rs|] == rs;
  }

  /** Adding `a` and then `b` is adding `a + b`. */
  lemma {:induction false} AddAllAppend(h: seq<Result>, a: seq<Result>, b: seq<Result>, max: int)
    ensures AddAll(h, a + b, max) == AddAll(AddAll(h, a, max), b, max)
    decreases |b|
  {
    if b == [] {
      assert a + b == a;
    } else {
      var front, r := b[..|b| - 1], b[|b| - 1];
      assert a + b == (a + front) + [r];
      AddAllSnoc(h, a + front, r, max);
      AddAllAppend(h, a, front, max);
    }
  }

  /** `s` in reverse order: the newest of a sequence of writes first. */
  function Reversed(s: seq<Result>): (r: seq<Result>)
    ensures |r| == |s|
    ensures forall k :: 0 <= k < |s| ==> r[k] == s[|s| - 1 - k]
    decreases |s|
  {
    if s == [] then [] else [s[|s| - 1]] + Reversed(s[..|s| - 1])
  }

  /**
   * Adding several results leaves the newest first, followed by the older
   * list, cut to `max`: exactly the `max` most recent results survive.
   */
  lemma {:induction false} AddAllNewestFirst(h: seq<Result>, rs: seq<Result>, max: int)
    requires |h| <= max
    ensures AddAll(h, rs, max) == (Reversed(rs) + h)[..Min(|rs| + |h|, max)]
    decreases |rs|
  {
    if rs != [] {
      var front, r := rs[..|rs| - 1], rs[|rs| - 1];
      AddAllNewestFirst(h, front, max);
      var x := Reversed(front) + h;
      var a := AddAll(h, front, max);
      assert a == x[..Min(|x|, max)];
      assert Reversed(rs) == [r] + Reversed(front);
      assert Reversed(rs) + h == [r] + x;
      calc {
        AddAll(h, rs, max);
        Pushed(a, r, max);
        ([r] + a)[..Min(|a| + 1, max)];
        { assert [r] + a == ([r] + x)[..Min(|x|, max) + 1]; }
        ([r] + x)[..Min(|x|, max) + 1][..Min(|a| + 1, max)];
        ([r] + x)[..Min(|x| + 1, max)];
      }
    }
  }

  /** No sequence of adds ever makes a list longer than `max`. */
  lemma {:induction false} AddAllBounded(h: seq<Result>, rs: seq<Result>, max: int)
    requires |h| <= max
    ensures |AddAll(h, rs, max)| == Min(|rs| + |h|, max)
  {
    AddAllNewestFirst(h, rs, max);
  }

  /** The results of a battery of results when max is 3 and four are added (TestResults). */
  lemma FourAddsLeaveThree(rs: seq<Result>)
    requires |rs| == 4
    ensures AddAll([], rs, 3) == [rs[3], rs[2], rs[1]]
  {
    AddAllNewestFirst([], rs, 3);
  }

  // ---------------------------------------------------------------------------
  // The history length: the code as written, and the corrected rule
  // ---------------------------------------------------------------------------

  /** `New` as written: only a zero HistoryLen is replaced by the default. */
  function HistoryLenAsWritten(historyLen: int): (m: int)
    ensures historyLen == 0 ==> m == DefaultHistoryLen
    ensures historyLen != 0 ==> m == historyLen
  {
    if historyLen == 0 then DefaultHistoryLen else historyLen
  }

  /** What Go's `Last` does on a stored map: nil, the front Result, or a nil dereference. */
  datatype FrontRead = NilResult | Front(result: Result) | NilFrontDereference

  /** `Last` as written: an exam whose list is present but empty panics on `l.Front().Value`. */
  function LastAsWritten(res: map<string, seq<Result>>, name: string): (f: FrontRead)
    ensures f.NilFrontDereference? <==> name in res && res[name] == []
    ensures f.Front? ==> name in res && f.result == res[name][0]
  {
    if name !in res then NilResult
    else if res[name] == [] then NilFrontDereference
    else Front(res[name][0])
  }

  /**
   * With a negative HistoryLen, which `New` lets through, every `Add` drops
   * the result it has just pushed: the exam's list stays present but empty,
   * and `Last` on it dereferences a nil front element.
   */
  lemma {:induction false} NegativeHistoryLenEmptiesHistory(historyLen: int, name: string, rs: seq<Result>)
    requires historyLen < 0
    requires rs != []
    ensures AddAll([], rs, HistoryLenAsWritten(historyLen)) == []
    ensures LastAsWritten(map[name := AddAll([], rs, HistoryLenAsWritten(historyLen))], name) == NilFrontDereference
    decreases |rs|
  {
    var max := HistoryLenAsWritten(historyLen);
    var front := rs[..|rs| - 1];
    if front != [] {
      NegativeHistoryLenEmptiesHistory(historyLen, name, front);
    }
    assert AddAll([], front, max) == [];
  }

  /** The corrected rule: any non-positive HistoryLen falls back to the default, so the bound is positive. */
  function HistoryLen(historyLen: int): (m: int)
    ensures m >= 1
    ensures historyLen > 0 ==> m == historyLen == HistoryLenAsWritten(historyLen)
    ensures historyLen == 0 ==> m == HistoryLenAsWritten(0) == DefaultHistoryLen
  {
    if historyLen <= 0 then DefaultHistoryLen else historyLen
  }

  // ---------------------------------------------------------------------------
  // The result store
  // ---------------------------------------------------------------------------

  /** The per-exam result store (`results`): each exam's list is most-recent-first. */
  class Results {
    var res: map<string, seq<Result>>
    const max: int

    /** Every stored list holds between 1 and `max` results. */
    ghost predicate Valid()
      reads this
    {
      && max >= 1
      && forall name :: name in res ==> 1 <= |res[name]| <= max
    }

    /** `newResults(max)`: an empty store. */
    constructor (max: int)
      requires max >= 1
      ensures Valid()
      ensures this.max == max && res == map[]
    {
      this.max := max;
      res := map[];
    }

    /** The abstract list of one exam: empty when the exam has no history. */
    function History(name: string): seq<Result>
      reads this
    {
      if name in res then res[name] else []
    }

    /** `Add`: push onto the exam's list, creating it on first write, and evict the oldest past `max`. */
    method Add(r: Result)
      requires Valid()
      modifies this
      ensures Valid()
      ensures res == old(res)[r.exam := Pushed(old(History(r.exam)), r, max)]
      ensures History(r.exam) == ([r] + old(History(r.exam)))[..Min(old(Len(r.exam)) + 1, max)]
      ensures Len(r.exam) == Min(old(Len(r.exam)) + 1, max)
      ensures Last(r.exam) == Some(r)
      ensures forall name :: name != r.exam ==> History(name) == old(History(name))
    {
      var l := if r.exam in res then res[r.exam] else [];
      res := res[r.exam := Pushed(l, r, max)];
    }

    /** `Empty`: discard one exam's history; an absent name is a no-op. */
    method Empty(name: string)
      requires Valid()
      modifies this
      ensures Valid()
      ensures res == old(res) - {name}
      ensures old(name !in res) ==> res == old(res)
      ensures Len(name) == 0 && History(name) == [] && Last(name) == None
      ensures forall other :: other != name ==> History(other) == old(History(other))
    {
      if name in res {
        res := res - {name};
      }
    }

    /** `Last`: the most recent result, or none when the exam has no history. */
    function Last(name: string): (r: Option<Result>)
      reads this
      requires Valid()
      ensures r.None? <==> name !in res
      ensures r.None? <==> History(name) == []
      ensures r.Some? ==> r.value == History(name)[0]
    {
      if name !in res then None else Some(res[name][0])
    }

    /** `Len`: the number of stored results, zero for an exam with no history. */
    function Len(name: string): (n: nat)
      reads this
      ensures n == |History(name)|
      ensures name !in res ==> n == 0
      ensures Valid() ==> n <= max && (n == 0 <==> name !in res)
    {
      if name !in res then 0 else |res[name]|
    }

    /** `List`: a copy of the exam's list, most recent first, filled front to back. */
    method List(name: string) returns (rs: seq<Result>)
      ensures rs == History(name)
      ensures Valid() ==> |rs| <= max
      ensures Valid() && rs != [] ==> Last(name) == Some(rs[0])
    {
      if name !in res {
        return [];
      }
      var l := res[name];
      var a := new Result[|l|];
      var i := 0;
      while i < |l|
        invariant 0 <= i <= |l|
        invariant a[..i] == l[..i]
      {
        a[i] := l[i];
        i := i + 1;
      }
      rs := a[..];
    }

    /** `Exams`: every exam with a stored list, mapped to its front outcome ("unknown" without a front). */
    function Exams(): (m: map<string, string>)
      reads this
      ensures m.Keys == res.Keys
      ensures forall name :: name in m ==> m[name] in {"pass", "fail", "unknown"}
      ensures forall name :: name in m && res[name] == [] ==> m[name] == "unknown"
      ensures Valid() ==> forall name :: name in m ==> Last(name).Some? && m[name] == OutcomeName(Last(name).value.outcome)
    {
      map name | name in res :: if res[name] != [] then OutcomeName(res[name][0].outcome) else OutcomeName(Unknown)
    }
  }

  /**
   * The sequence of TestResults, run against a store bounded by 3: one add,
   * an empty, then four adds of the same exam, which leave the last three.
   */
  method ResultsScenario(r1: Result, rs: seq<Result>) returns (afterAdd: nat, afterEmpty: nat, afterFour: seq<Result>)
    requires |rs| == 4 && forall k :: 0 <= k < 4 ==> rs[k].exam == r1.exam
    ensures afterAdd == 1 && afterEmpty == 0
    ensures afterFour == [rs[3], rs[2], rs[1]]
  {
    var store := new Results(3);
    store.Add(r1);
    afterAdd := store.Len(r1.exam);
    store.Empty(r1.exam);
    afterEmpty := store.Len(r1.exam);
    for k := 0 to 4
      invariant store.Valid() && store.max == 3
      invariant store.History(r1.exam) == AddAll([], rs[..k], 3)
    {
      AddAllSnoc([], rs[..k], rs[k], 3);
      assert rs[..k + 1] == rs[..k] + [rs[k]];
      store.Add(rs[k]);
    }
    assert rs[..4] == rs;
    FourAddsLeaveThree(rs);
    afterFour := store.List(r1.exam);
  }

  // ---------------------------------------------------------------------------
  // Pre-flight validation
  // ---------------------------------------------------------------------------

  /** The violation `preflight` reports; each carries the name its error message quotes. */
  datatype PreflightError =
    | NoExam(exam: string)
    | NoDependency(dependency: string)
    | BadInterval(interval: string)
    | NoNotifier(notifier: string)

  /** The names of the declared notifiers. */
  function NotifierNames(notifiers: seq<Notifier>): set<string>
  {
    set k | 0 <= k < |notifiers| :: notifiers[k].name
  }

  /** The first of `names` that is not `known`, if any. */
  function FirstMissing(names: seq<string>, known: set<string>): (m: Option<string>)
    ensures m.Some? ==> m.value in names && m.value !in known
    ensures m.None? <==> forall n :: n in names ==> n in known
  {
    if names == [] then None
    else if names[0] !in known then Some(names[0])
    else FirstMissing(names[1..], known)
  }

  /** FirstMissing finds the earliest unknown name. */
  lemma {:induction false} FirstMissingIsFirst(names: seq<string>, known: set<string>)
    requires FirstMissing(names, known).Some?
    ensures exists i :: 0 <= i < |names| && names[i] == FirstMissing(names, known).value
                        && forall j :: 0 <= j < i ==> names[j] in known
  {
    if names[0] in known {
      FirstMissingIsFirst(names[1..], known);
      var i :| 0 <= i < |names[1..]| && names[1..][i] == FirstMissing(names[1..], known).value
               && forall j :: 0 <= j < i ==> names[1..][j] in known;
      assert names[i + 1] == FirstMissing(names, known).value;
      assert forall j :: 0 <= j < i + 1 ==> names[j] in known by {
        forall j | 0 <= j < i + 1 ensures names[j] in known {
          if j > 0 { assert names[j] == names[1..][j - 1]; }
        }
      }
    } else {
      assert names[0] == FirstMissing(names, known).value;
    }
  }

  /** An exam that passes every pre-flight check, stated over the notifier list as `preflight` scans it. */
  predicate ExamOk(e: Exam, routes: set<string>, validDuration: string -> bool, notifiers: seq<Notifier>)
  {
    && e.name in routes
    && (forall d :: d in e.depends ==> d in routes)
    && validDuration(e.interval)
    && (forall n :: n in e.notify ==> exists k :: 0 <= k < |notifiers| && notifiers[k].name == n)
  }

  /** The violation of one exam, checked in order: name, dependencies, interval, notifiers. */
  function ExamViolation(e: Exam, routes: set<string>, validDuration: string -> bool,
                         notifiers: seq<Notifier>): (v: Option<PreflightError>)
    ensures v.None? <==> ExamOk(e, routes, validDuration, notifiers)
    ensures v == Some(NoExam(e.name)) <==> e.name !in routes
    ensures v.Some? && v.value.NoDependency? ==>
              && e.name in routes
              && FirstMissing(e.depends, routes) == Some(v.value.dependency)
              && v.value.dependency in e.depends && v.value.dependency !in routes
    ensures v.Some? && v.value.BadInterval? ==>
              && e.name in routes && (forall d :: d in e.depends ==> d in routes)
              && v.value.interval == e.interval && !validDuration(e.interval)
    ensures v.Some? && v.value.NoNotifier? ==>
              && e.name in routes && (forall d :: d in e.depends ==> d in routes)
              && validDuration(e.interval)
              && v.value.notifier in e.notify
              && FirstMissing(e.notify, NotifierNames(notifiers)) == Some(v.value.notifier)
              && forall k :: 0 <= k < |notifiers| ==> notifiers[k].name != v.value.notifier
  {
    if e.name !in routes then Some(NoExam(e.name))
    else match FirstMissing(e.depends, routes)
      case Some(d) => Some(NoDependency(d))
      case None =>
        if !validDuration(e.interval) then Some(BadInterval(e.interval))
        else match FirstMissing(e.notify, NotifierNames(notifiers))
          case Some(n) => Some(NoNotifier(n))
          case None => None
  }

  /** The violation `preflight` reports for a list of exams: the first exam's, else the rest's. */
  function Violation(exams: seq<Exam>, routes: set<string>, validDuration: string -> bool,
                     notifiers: seq<Notifier>): (v: Option<PreflightError>)
    ensures v.None? <==> forall i :: 0 <= i < |exams| ==> ExamOk(exams[i], routes, validDuration, notifiers)
  {
    if exams == [] then None
    else match ExamViolation(exams[0], routes, validDuration, notifiers)
      case Some(err) => Some(err)
      case None =>
        var rest := Violation(exams[1..], routes, validDuration, notifiers);
        assert forall i :: 1 <= i < |exams| ==> exams[i] == exams[1..][i - 1];
        rest
  }

  /**
   * A reported violation is the violation of the first exam that fails, all
   * earlier exams passing (no violation, which ExamViolation equates with ExamOk).
   */
  lemma {:induction false} ViolationIsFirst(exams: seq<Exam>, routes: set<string>, validDuration: string -> bool,
                                            notifiers: seq<Notifier>)
    requires Violation(exams, routes, validDuration, notifiers).Some?
    ensures exists i :: && 0 <= i < |exams|
                        && (forall j :: 0 <= j < i ==> ExamViolation(exams[j], routes, validDuration, notifiers).None?)
                        && ExamViolation(exams[i], routes, validDuration, notifiers)
                           == Violation(exams, routes, validDuration, notifiers)
  {
    if ExamViolation(exams[0], routes, validDuration, notifiers).None? {
      var rest := exams[1..];
      ViolationIsFirst(rest, routes, validDuration, notifiers);
      var i :| && 0 <= i < |rest|
               && (forall j :: 0 <= j < i ==> ExamViolation(rest[j], routes, validDuration, notifiers).None?)
               && ExamViolation(rest[i], routes, validDuration, notifiers)
                  == Violation(rest, routes, validDuration, notifiers);
      assert rest[i] == exams[i + 1];
      forall j | 0 <= j < i + 1 ensures ExamViolation(exams[j], routes, validDuration, notifiers).None? {
        if j > 0 { assert exams[j] == rest[j - 1]; }
      }
    }
  }

  /** The battery of portunes_test.go: three exams, one notifier. */
  function BasicBattery(): Battery
  {
    Battery([Exam("test1", "5ms", [], []),
             Exam("test2", "1s", ["test1"], []),
             Exam("test3", "10ms", [], ["group1"])],
            [Notifier("group1", map[])], 0)
  }

  /** TestPreflight: without routes the basic battery fails on its first exam; with all three it passes. */
  lemma BasicBatteryPreflight(validDuration: string -> bool)
    requires validDuration("5ms") && validDuration("1s") && validDuration("10ms")
    ensures Violation(BasicBattery().exams, {}, validDuration, BasicBattery().notifiers) == Some(NoExam("test1"))
    ensures Violation(BasicBattery().exams, {"test1", "test2", "test3"}, validDuration, BasicBattery().notifiers) == None
  {
    var b := BasicBattery();
    assert "group1" == b.notifiers[0].name;
    assert ExamOk(b.exams[0], {"test1", "test2", "test3"}, validDuration, b.notifiers);
    assert ExamOk(b.exams[1], {"test1", "test2", "test3"}, validDuration, b.notifiers);
    assert ExamOk(b.exams[2], {"test1", "test2", "test3"}, validDuration, b.notifiers);
  }

  /** The inner loop of `preflight`: is `n` the name of one of `notifiers`? */
  method FindNotifier(n: string, notifiers: seq<Notifier>) returns (found: bool)
    ensures found <==> n in NotifierNames(notifiers)
  {
    found := false;
    for k := 0 to |notifiers|
      invariant !found ==> forall q :: 0 <= q < k ==> notifiers[q].name != n
    {
      if notifiers[k].name == n {
        return true;
      }
    }
  }

  /**
   * The body of `preflight`'s loop for one exam: its name must be a route,
   * then each dependency, then its interval must parse, then each notify
   * entry must name a declared notifier. The first failure is returned.
   */
  method CheckExam(e: Exam, routes: set<string>, validDuration: string -> bool, notifiers: seq<Notifier>)
    returns (err: Option<PreflightError>)
    ensures err == ExamViolation(e, routes, validDuration, notifiers)
  {
    if e.name !in routes {
      return Some(NoExam(e.name));
    }
    for j := 0 to |e.depends|
      invariant FirstMissing(e.depends, routes) == FirstMissing(e.depends[j..], routes)
    {
      assert e.depends[j..][1..] == e.depends[j + 1..];
      if e.depends[j] !in routes {
        return Some(NoDependency(e.depends[j]));
      }
    }
    if !validDuration(e.interval) {
      return Some(BadInterval(e.interval));
    }
    for j := 0 to |e.notify|
      invariant FirstMissing(e.notify, NotifierNames(notifiers)) == FirstMissing(e.notify[j..], NotifierNames(notifiers))
    {
      assert e.notify[j..][1..] == e.notify[j + 1..];
      var found := FindNotifier(e.notify[j], notifiers);
      if !found {
        return Some(NoNotifier(e.notify[j]));
      }
    }
    return None;
  }

  // ---------------------------------------------------------------------------
  // Running an exam
  // ---------------------------------------------------------------------------

  /** The record written when an exam is loaded, before its first tick. */
  function InitialResult(exam: string, date: int): (r: Result)
    ensures r.exam == exam && r.date == date
    ensures r.outcome == Unknown && r.message == "Exam loaded, but not run yet."
  {
    Result(exam, date, Unknown, NotRunMessage)
  }

  /** One ticker tick: its time, and the handler's error text when it returned one. */
  datatype Tick = Tick(now: int, handlerError: Option<string>)

  /** The record of one tick: Fail with the error's text, or Pass with an empty message. */
  function TickResult(exam: string, t: Tick): (r: Result)
    ensures r.exam == exam && r.date == t.now
    ensures r.outcome == Pass <==> t.handlerError.None?
    ensures r.outcome == Fail <==> t.handlerError.Some?
    ensures r.outcome != Unknown
    ensures t.handlerError.None? ==> r.message == ""
    ensures t.handlerError.Some? ==> r.message == t.handlerError.value
  {
    match t.handlerError
    case None => Result(exam, t.now, Pass, "")
    case Some(msg) => Result(exam, t.now, Fail, msg)
  }

  function TickResults(exam: string, ticks: seq<Tick>): (rs: seq<Result>)
    ensures |rs| == |ticks|
    ensures forall k :: 0 <= k < |ticks| ==> rs[k] == TickResult(exam, ticks[k])
  {
    seq(|ticks|, k requires 0 <= k < |ticks| => TickResult(exam, ticks[k]))
  }

  /** One more tick adds its record at the end. */
  lemma TickResultsSnoc(exam: string, ticks: seq<Tick>, i: int)
    requires 0 <= i < |ticks|
    ensures TickResults(exam, ticks[..i + 1]) == TickResults(exam, ticks[..i]) + [TickResult(exam, ticks[i])]
  {
  }

  /**
   * The records one run of an exam writes, oldest first: the initial record,
   * then one per tick, or nothing more when the interval does not parse.
   */
  function RunRecords(exam: Exam, start: int, validDuration: string -> bool, ticks: seq<Tick>): seq<Result>
  {
    [InitialResult(exam.name, start)] + (if validDuration(exam.interval) then TickResults(exam.name, ticks) else [])
  }

  /**
   * For an exam with no earlier history, a run leaves the ticks' records
   * newest first followed by the initial Unknown record, cut to `max`: the
   * newest record is the last tick's, and the Unknown record stays at the
   * end until it is evicted.
   */
  lemma FreshRunHistory(exam: Exam, start: int, validDuration: string -> bool, ticks: seq<Tick>, max: int)
    requires max >= 1 && validDuration(exam.interval)
    ensures var h := AddAll([], RunRecords(exam, start, validDuration, ticks), max);
            && h == (Reversed(TickResults(exam.name, ticks)) + [InitialResult(exam.name, start)])[..Min(|ticks| + 1, max)]
            && |h| == Min(|ticks| + 1, max)
            && (ticks == [] ==> h == [InitialResult(exam.name, start)])
            && (ticks != [] ==> h[0] == TickResult(exam.name, ticks[|ticks| - 1]))
            && (|ticks| < max ==> h[|h| - 1] == InitialResult(exam.name, start))
  {
    var init, tr := InitialResult(exam.name, start), TickResults(exam.name, ticks);
    var rs := RunRecords(exam, start, validDuration, ticks);
    assert rs == [init] + tr;
    AddAllNewestFirst([], rs, max);
    assert Reversed(rs) + [] == Reversed(rs);
    ReversedAfterFirst(init, tr);
    var h := AddAll([], rs, max);
    assert h == (Reversed(tr) + [init])[..Min(|ticks| + 1, max)];
    if ticks != [] {
      assert h[0] == Reversed(tr)[0] == tr[|tr| - 1];
    }
  }

  /** Reversing a first record followed by others puts the others, newest first, in front of it. */
  lemma ReversedAfterFirst(first: Result, rest: seq<Result>)
    ensures Reversed([first] + rest) == Reversed(rest) + [first]
  {
    var rs := [first] + rest;
    assert Reversed(rs)[|rest|] == rs[0];
    forall k | 0 <= k < |rest| ensures Reversed(rs)[k] == Reversed(rest)[k] {
      assert rs[|rs| - 1 - k] == rest[|rest| - 1 - k];
    }
  }

  /** An exam whose interval does not parse keeps only its initial Unknown record. */
  lemma UnparsableIntervalStaysUnknown(exam: Exam, start: int, validDuration: string -> bool, ticks: seq<Tick>, max: int)
    requires max >= 1 && !validDuration(exam.interval)
    ensures AddAll([], RunRecords(exam, start, validDuration, ticks), max) == [InitialResult(exam.name, start)]
  {
    assert RunRecords(exam, start, validDuration, ticks) == [InitialResult(exam.name, start)];
    AddAllNewestFirst([], [InitialResult(exam.name, start)], max);
  }

  /** TestRunExam: after one tick the list is the tick's record, then the Unknown record. */
  lemma OneTickHistory(exam: Exam, start: int, validDuration: string -> bool, t: Tick, max: int)
    requires max >= 2 && validDuration(exam.interval)
    ensures var h := AddAll([], RunRecords(exam, start, validDuration, [t]), max);
            && h == [TickResult(exam.name, t), InitialResult(exam.name, start)]
            && (h[0].outcome == Pass <==> t.handlerError.None?)
            && (h[0].outcome == Fail <==> t.handlerError.Some?)
            && h[1].outcome == Unknown
  {
    FreshRunHistory(exam, start, validDuration, [t], max);
  }

  // ---------------------------------------------------------------------------
  // The service
  // ---------------------------------------------------------------------------

  /** The test-running service: its battery and its result store. */
  class Portunes {
    const battery: Battery
    const results: Results

    ghost predicate Valid()
      reads this, results
    {
      results.Valid() && results.max == battery.historyLen
    }

    /** `New`: default the history length, then create an empty store bounded by it. */
    constructor New(b: Battery)
      ensures Valid() && fresh(results)
      ensures battery == b.(historyLen := HistoryLen(b.historyLen))
      ensures results.res == map[]
    {
      var max := HistoryLen(b.historyLen);
      battery := b.(historyLen := max);
      results := new Results(max);
    }

    /**
     * `preflight`: check the exams in order and return the first failure;
     * each exam's checks are `CheckExam`.
     */
    method Preflight(routes: set<string>, validDuration: string -> bool) returns (err: Option<PreflightError>)
      ensures err == Violation(battery.exams, routes, validDuration, battery.notifiers)
      ensures err.None? <==> forall i :: 0 <= i < |battery.exams| ==> ExamOk(battery.exams[i], routes, validDuration, battery.notifiers)
    {
      var exams := battery.exams;
      for i := 0 to |exams|
        invariant Violation(exams, routes, validDuration, battery.notifiers) == Violation(exams[i..], routes, validDuration, battery.notifiers)
      {
        assert exams[i..][0] == exams[i] && exams[i..][1..] == exams[i + 1..];
        err := CheckExam(exams[i], routes, validDuration, battery.notifiers);
        if err.Some? {
          return;
        }
      }
      return None;
    }

    /** One tick of `runExam`'s loop: record the handler's outcome for the exam. */
    method RecordTick(exam: Exam, t: Tick)
      requires Valid()
      modifies results
      ensures Valid()
      ensures results.res == old(results.res)[exam.name := Pushed(old(results.History(exam.name)), TickResult(exam.name, t), results.max)]
    {
      results.Add(TickResult(exam.name, t));
    }

    /**
     * The sequential part of `runExam`: write the initial Unknown record, stop
     * if the interval does not parse, then record one result per tick until
     * cancellation (the end of `ticks`).
     */
    method RunExam(exam: Exam, start: int, validDuration: string -> bool, ticks: seq<Tick>)
      requires Valid()
      modifies results
      ensures Valid()
      ensures results.res == old(results.res)[exam.name :=
                AddAll(old(results.History(exam.name)), RunRecords(exam, start, validDuration, ticks), results.max)]
    {
      ghost var before, max := results.History(exam.name), results.max;
      var initial := InitialResult(exam.name, start);
      results.Add(initial);
      assert AddAll(before, [initial], max) == Pushed(before, initial, max) by {
        AddAllSnoc(before, [], initial, max);
        assert [] + [initial] == [initial];
      }
      if !validDuration(exam.interval) {
        return;
      }
      RecordTicks(exam, ticks);
      AddAllAppend(before, [initial], TickResults(exam.name, ticks), max);
    }

    /** The ticker loop of `runExam`, after the initial record: one recorded result per tick, in tick order. */
    method RecordTicks(exam: Exam, ticks: seq<Tick>)
      requires Valid() && exam.name in results.res
      modifies results
      ensures Valid()
      ensures results.res == old(results.res)[exam.name :=
                AddAll(old(results.History(exam.name)), TickResults(exam.name, ticks), results.max)]
    {
      ghost var before, res0, max := results.History(exam.name), results.res, results.max;
      for i := 0 to |ticks|
        invariant Valid()
        invariant results.res == res0[exam.name := AddAll(before, TickResults(exam.name, ticks[..i]), max)]
      {
        ghost var prev := AddAll(before, TickResults(exam.name, ticks[..i]), max);
        assert results.History(exam.name) == prev;
        RecordTick(exam, ticks[i]);
        TickResultsSnoc(exam.name, ticks, i);
        AddAllSnoc(before, TickResults(exam.name, ticks[..i]), TickResult(exam.name, ticks[i]), max);
        assert results.res == res0[exam.name := Pushed(prev, TickResult(exam.name, ticks[i]), max)];
      }
      assert ticks[..|ticks|] == ticks;
    }
  }
}
