/** The logger over a tree of sinks (logger/src/SinkLogger.cpp, logger/src/MultiSink.cpp).  An error code is a
    number, 0 for none; as in the program it is handed in and only a failure writes it. */
module Sinks {
  import opened LogLevel
  import LogRecord

  type ErrorCode = nat

  const INVALID_ARGUMENT: ErrorCode := 22

  /** A sink that delivers lines itself.  `answer(n)` is the error of its n-th write, 0 for success. */
  class LeafSink {
    const answer: nat -> ErrorCode
    var lines: seq<string>

    constructor (answer: nat -> ErrorCode)
      ensures this.answer == answer && lines == []
    {
      this.answer, lines := answer, [];
    }

    /** The error of the next write. */
    function Next(): ErrorCode
      reads this
    {
      answer(|lines|)
    }

    method WriteLine(line: string, error: ErrorCode) returns (ok: bool, ec: ErrorCode)
      modifies this
      ensures lines == old(lines) + [line]
      ensures ok <==> old(Next()) == 0
      ensures ec == if ok then error else old(Next())
    {
      var code := answer(|lines|);
      lines := lines + [line];
      if code == 0 {
        return true, error;
      }
      return false, code;
    }
  }

  datatype Sink = Leaf(leaf: LeafSink) | Multi(sinks: seq<Sink>)

  /** The leaves in the order they are written. */
  function Leaves(sink: Sink): seq<LeafSink>
    decreases sink, 1
  {
    match sink
    case Leaf(leaf) => [leaf]
    case Multi(sinks) => LeavesOf(sinks)
  }

  function LeavesOf(sinks: seq<Sink>): seq<LeafSink>
    decreases sinks, 0
  {
    if sinks == [] then []
    else LeavesOf(sinks[..|sinks| - 1]) + Leaves(sinks[|sinks| - 1])
  }

  /** The leaves of several sinks are those of the first, then those of the others. */
  lemma {:induction false} LeavesInOrder(first: Sink, rest: seq<Sink>)
    ensures LeavesOf([first] + rest) == Leaves(first) + LeavesOf(rest)
    ensures Leaves(Multi(rest)) == LeavesOf(rest) && LeavesOf([]) == []
  {
    if rest == [] {
      assert [first] + rest == [first] && [first][..0] == [];
    } else {
      var shorter, last := rest[..|rest| - 1], rest[|rest| - 1];
      LeavesInOrder(first, shorter);
      assert ([first] + rest)[..|rest|] == [first] + shorter;
    }
  }

  /** Every leaf has one owner. */
  ghost predicate AreDistinct(leaves: seq<LeafSink>) {
    forall i, j | 0 <= i < j < |leaves| :: leaves[i] != leaves[j]
  }

  /** The answers the leaves are about to give. */
  function Answers(leaves: seq<LeafSink>): (codes: seq<ErrorCode>)
    reads leaves
    ensures |codes| == |leaves|
    ensures forall i | 0 <= i < |leaves| :: codes[i] == leaves[i].Next()
  {
    if leaves == [] then [] else Answers(leaves[..|leaves| - 1]) + [leaves[|leaves| - 1].Next()]
  }

  function FirstError(codes: seq<ErrorCode>): ErrorCode {
    if codes == [] then 0 else if codes[0] != 0 then codes[0] else FirstError(codes[1..])
  }

  lemma {:induction false} FirstErrorOfConcat(a: seq<ErrorCode>, b: seq<ErrorCode>)
    ensures FirstError(a + b) == if FirstError(a) != 0 then FirstError(a) else FirstError(b)
  {
    if a == [] {
      assert a + b == b;
    } else {
      assert (a + b)[1..] == a[1..] + b;
      FirstErrorOfConcat(a[1..], b);
    }
  }

  /** It is 0 exactly when nobody fails, and otherwise the code of somebody before whom nobody fails. */
  lemma {:induction false} FirstErrorIsFirst(codes: seq<ErrorCode>)
    ensures FirstError(codes) == 0 <==> forall i | 0 <= i < |codes| :: codes[i] == 0
    ensures FirstError(codes) != 0 ==>
              exists i :: 0 <= i < |codes| && codes[i] == FirstError(codes) && forall j | 0 <= j < i :: codes[j] == 0
  {
    if codes != [] && codes[0] == 0 {
      var rest := codes[1..];
      FirstErrorIsFirst(rest);
      assert forall i | 0 <= i < |rest| :: rest[i] == codes[i + 1];
      if FirstError(rest) != 0 {
        var i :| 0 <= i < |rest| && rest[i] == FirstError(rest) && forall j | 0 <= j < i :: rest[j] == 0;
        assert codes[i + 1] == FirstError(codes) && forall j | 0 <= j < i + 1 :: codes[j] == 0;
      }
    }
  }

  lemma {:induction false} LeavesOfPrefix(sinks: seq<Sink>, n: nat)
    requires n <= |sinks|
    ensures LeavesOf(sinks[..n]) <= LeavesOf(sinks)
  {
    if n < |sinks| {
      var shorter := sinks[..|sinks| - 1];
      LeavesOfPrefix(shorter, n);
      assert shorter[..n] == sinks[..n];
    } else {
      assert sinks[..n] == sinks;
    }
  }

  lemma NextLeaves(sinks: seq<Sink>, i: nat)
    requires i < |sinks|
    ensures LeavesOf(sinks[..i + 1]) == LeavesOf(sinks[..i]) + Leaves(sinks[i])
    ensures LeavesOf(sinks[..i + 1]) <= LeavesOf(sinks)
    ensures var done := |LeavesOf(sinks[..i])|;
            done + |Leaves(sinks[i])| <= |LeavesOf(sinks)| &&
            LeavesOf(sinks)[done..done + |Leaves(sinks[i])|] == Leaves(sinks[i])
    ensures forall l | l in Leaves(sinks[i]) :: l in LeavesOf(sinks)
  {
    assert sinks[..i + 1][..i] == sinks[..i];
    LeavesOfPrefix(sinks, i + 1);
    var done, all := |LeavesOf(sinks[..i])|, LeavesOf(sinks);
    assert all[done..done + |Leaves(sinks[i])|] == Leaves(sinks[i]);
    forall l | l in all[done..done + |Leaves(sinks[i])|] ensures l in all {
    }
  }

  /** The first `n` leaves have been given the line, the others are as they were. */
  ghost predicate IsGiven(leaves: seq<LeafSink>, before: seq<seq<string>>, line: string, n: nat)
    reads leaves
  {
    && n <= |leaves| == |before|
    && forall k | 0 <= k < |leaves| :: leaves[k].lines == if k < n then before[k] + [line] else before[k]
  }

  /** Every leaf gets the line, whatever the others answer; the error is the first one in order. */
  method WriteLine(sink: Sink, line: string, error: ErrorCode) returns (ok: bool, ec: ErrorCode)
    requires AreDistinct(Leaves(sink))
    modifies Leaves(sink)
    ensures forall i | 0 <= i < |Leaves(sink)| :: Leaves(sink)[i].lines == old(Leaves(sink)[i].lines) + [line]
    ensures ok <==> FirstError(old(Answers(Leaves(sink)))) == 0
    ensures ec == if ok then error else FirstError(old(Answers(Leaves(sink))))
    decreases sink, 1
  {
    match sink {
      case Leaf(leaf) =>
        assert Leaves(sink) == [leaf] && leaf in Leaves(sink);
        ok, ec := leaf.WriteLine(line, error);
      case Multi(sinks) =>
        ghost var all, codes := LeavesOf(sinks), Answers(LeavesOf(sinks));
        ghost var before := seq(|all|, k requires 0 <= k < |all| reads all => all[k].lines);
        ok, ec := WriteAll(sinks, line, error, all, before, codes);
        EveryLeafIsGiven(all, before, line);
    }
  }

  method WriteAll(sinks: seq<Sink>, line: string, error: ErrorCode, ghost all: seq<LeafSink>,
                  ghost before: seq<seq<string>>, ghost codes: seq<ErrorCode>)
      returns (written: bool, ec: ErrorCode)
    requires all == LeavesOf(sinks) && AreDistinct(all)
    requires IsGiven(all, before, line, 0)
    requires |codes| == |all| && forall k | 0 <= k < |codes| :: codes[k] == all[k].answer(|before[k]|)
    modifies all
    ensures IsGiven(all, before, line, |all|)
    ensures written <==> FirstError(codes) == 0
    ensures ec == if written then error else FirstError(codes)
    decreases sinks, 0
  {
    hide Leaves, LeavesOf, FirstError, Answers, IsGiven, AreDistinct;
    written, ec := true, error;
    NoLeaves(sinks);
    ghost var n := 0;
    for i := 0 to |sinks|
      invariant n == |LeavesOf(sinks[..i])| <= |codes| && IsGiven(all, before, line, n)
      invariant written <==> FirstError(codes[..n]) == 0
      invariant ec == if written then error else FirstError(codes[..n])
    {
      NextLeaves(sinks, i);
      var sinkOk, sinkError := WriteNext(sinks[i], line, all, before, codes, n);
      NextErrors(codes, n, |Leaves(sinks[i])|, written, ec, error, sinkOk, sinkError);
      n := n + |Leaves(sinks[i])|;
      if sinkOk {
        continue;
      }
      if written {
        ec := sinkError;
      }
      written := false;
    }
    assert sinks[..|sinks|] == sinks;
    assert codes[..|codes|] == codes;
  }

  lemma EveryLeafIsGiven(leaves: seq<LeafSink>, before: seq<seq<string>>, line: string)
    requires IsGiven(leaves, before, line, |leaves|)
    ensures forall k | 0 <= k < |leaves| :: leaves[k].lines == before[k] + [line]
  {
  }

  lemma NextErrors(codes: seq<ErrorCode>, done: nat, more: nat, written: bool, ec: ErrorCode, error: ErrorCode,
                   ok: bool, own: ErrorCode)
    requires done + more <= |codes|
    requires written <==> FirstError(codes[..done]) == 0
    requires ec == if written then error else FirstError(codes[..done])
    requires ok <==> FirstError(codes[done..done + more]) == 0
    requires !ok ==> own == FirstError(codes[done..done + more])
    ensures written && ok <==> FirstError(codes[..done + more]) == 0
    ensures (if written && !ok then own else ec) ==
            if written && ok then error else FirstError(codes[..done + more])
  {
    FirstErrorOfConcat(codes[..done], codes[done..done + more]);
    assert codes[..done + more] == codes[..done] + codes[done..done + more];
  }

  /** The turn of one sink, with an error code of its own; its leaves come after the first `done`. */
  method WriteNext(sink: Sink, line: string, ghost all: seq<LeafSink>, ghost before: seq<seq<string>>,
                   ghost codes: seq<ErrorCode>, ghost done: nat)
      returns (ok: bool, ec: ErrorCode)
    requires AreDistinct(all) && IsGiven(all, before, line, done)
    requires done + |Leaves(sink)| <= |all| && Leaves(sink) == all[done..done + |Leaves(sink)|]
    requires |codes| == |all| && forall k | 0 <= k < |codes| :: codes[k] == all[k].answer(|before[k]|)
    modifies Leaves(sink)
    ensures IsGiven(all, before, line, done + |Leaves(sink)|)
    ensures var mine := FirstError(codes[done..done + |Leaves(sink)|]);
            (ok <==> mine == 0) && (!ok ==> ec == mine)
    decreases sink, 2
  {
    hide Leaves, FirstError, Answers;
    ghost var mine := Leaves(sink);
    PartOfDistinct(all, mine, done);
    hide AreDistinct;
    assert Answers(mine) == codes[done..done + |mine|] by {
      forall k | 0 <= k < |mine| ensures Answers(mine)[k] == codes[done..done + |mine|][k] {
        assert mine[k] == all[done + k] && mine[k].Next() == codes[done + k];
      }
    }
    ok, ec := WriteLine(sink, line, 0);
    forall k | 0 <= k < |all|
      ensures all[k].lines == if k < done + |mine| then before[k] + [line] else before[k]
    {
      if done <= k < done + |mine| {
        assert all[k] == Leaves(sink)[k - done];
      }
    }
  }

  lemma PartOfDistinct(all: seq<LeafSink>, part: seq<LeafSink>, from: nat)
    requires AreDistinct(all) && from + |part| <= |all| && part == all[from..from + |part|]
    ensures AreDistinct(part)
    ensures forall k | 0 <= k < |part| :: part[k] == all[from + k]
    ensures forall k | 0 <= k < |all| && !(from <= k < from + |part|) :: all[k] !in part
  {
  }

  lemma NoLeaves(sinks: seq<Sink>)
    ensures LeavesOf(sinks[..0]) == [] && FirstError([]) == 0
  {
  }

  // ----- the logger -----

  class SinkLogger {
    const sink: Sink
    var level: Level
    /** Every line given to the sink. */
    ghost var history: seq<string>

    /** All leaves have seen the whole history. */
    ghost predicate Valid()
      reads this, Leaves(sink)
    {
      && AreDistinct(Leaves(sink))
      && forall leaf | leaf in Leaves(sink) :: leaf.lines == history
    }

    constructor (sink: Sink, level: Level)
      requires AreDistinct(Leaves(sink)) && forall leaf | leaf in Leaves(sink) :: leaf.lines == []
      ensures Valid() && this.sink == sink && this.level == level && history == []
    {
      this.sink, this.level, history := sink, level, [];
    }

    predicate IsEnabled(level: Level)
      reads this`level
    {
      level >= this.level
    }

    method SetLevel(level: Level)
      modifies this`level
      ensures this.level == level
    {
      this.level := level;
    }

    /** An invalid level is an error, a level under the threshold a success without a line; any other message
        becomes one line for every leaf, and the first failure in order is the error. */
    method Log(level: Level, message: string, now: int, error: ErrorCode) returns (ok: bool, ec: ErrorCode)
      requires Valid()
      modifies this`history, Leaves(sink)
      ensures Valid()
      ensures ok <==> ec == 0
      ensures var line := LogRecord.Format(LogRecord.Record(now, level, message));
              history == if level <= 4 && level >= this.level then old(history) + [line] else old(history)
      ensures ec == if level > 4 then 22 else if level < this.level then 0
                    else FirstError(old(Answers(Leaves(sink))))
    {
      ec := 0;
      if !IsValidLevel(level) {
        return false, INVALID_ARGUMENT;
      }
      if !IsEnabled(level) {
        return true, ec;
      }
      var line := LogRecord.Format(LogRecord.Record(now, level, message));
      ok, ec := WriteLine(sink, line, ec);
      history := history + [line];
    }
  }
}
