/** The reasons of failed writes as the main loop prints them (app/core/ConsoleApp.cpp:74-78): it looks at the last
    reason from time to time and prints it when it differs from the one it printed last. */
module Reasons {

  /** What printing makes of the values found: the non-empty ones, each where it differs from the one printed
      before it. */
  function Changes(found: seq<string>): seq<string> {
    if found == [] then []
    else
      var before, last := Changes(found[..|found| - 1]), found[|found| - 1];
      if last == "" || (before != [] && before[|before| - 1] == last) then before else before + [last]
  }

  /** The values found by looking when so many reasons were recorded. */
  function FoundAt(reasons: seq<string>, looks: seq<nat>): (found: seq<string>)
    requires AreLooks(reasons, looks)
    ensures |found| == |looks|
  {
    seq(|looks|, i requires 0 <= i < |looks| => if looks[i] == 0 then "" else reasons[looks[i] - 1])
  }

  /** Each look comes no earlier than the one before. */
  predicate AreLooks(reasons: seq<string>, looks: seq<nat>) {
    && (forall i | 0 <= i < |looks| :: looks[i] <= |reasons|)
    && (forall i, j | 0 <= i < j < |looks| :: looks[i] <= looks[j])
  }

  /** The lines printed are reasons recorded, in their order, with no two neighbours equal. */
  ghost predicate IsStutterFree(printed: seq<string>, marks: seq<int>, reasons: seq<string>) {
    && |marks| == |printed|
    && (forall k | 0 <= k < |printed| ::
          0 <= marks[k] < |reasons| && printed[k] == reasons[marks[k]] && printed[k] != "")
    && (forall j, k | 0 <= j < k < |marks| :: marks[j] < marks[k])
    && (forall k | 0 < k < |printed| :: printed[k - 1] != printed[k])
  }

  /** Printing one reason more: nothing when it was printed last. */
  function Printed(before: seq<string>, reason: string): seq<string> {
    if before != [] && before[|before| - 1] == reason then before else before + [reason]
  }

  // ----- blocks of equal reasons -----

  predicate AreEmpty(reasons: seq<string>, from: nat, to: nat)
    requires to <= |reasons|
  {
    forall i | from <= i < to :: reasons[i] == ""
  }

  /** The reason at `b` is not empty and differs from the last one before it that is not; so a block of equal
      reasons begins there. */
  ghost predicate IsChange(reasons: seq<string>, b: nat) {
    && b < |reasons| && reasons[b] != ""
    && forall a | 0 <= a < b && reasons[a] != "" && AreEmpty(reasons, a + 1, b) :: reasons[a] != reasons[b]
  }

  /** The last of `seen` reasons is not empty and lies in the block that begins at `b`. */
  ghost predicate LiesInBlock(reasons: seq<string>, b: nat, seen: nat) {
    && b < seen <= |reasons| && reasons[seen - 1] != ""
    && forall i | b < i < seen :: !IsChange(reasons, i)
  }

  /** How many blocks the first `n` reasons make. */
  function Blocks(reasons: seq<string>, n: nat): nat
    requires n <= |reasons|
  {
    |Changes(reasons[..n])|
  }

  lemma OneMoreFound(found: seq<string>, reason: string)
    ensures Changes(found + [reason]) ==
            (var before := Changes(found);
             if reason == "" || (before != [] && before[|before| - 1] == reason) then before else before + [reason])
  {
    assert (found + [reason])[..|found|] == found;
  }

  lemma NextChange(reasons: seq<string>, n: nat)
    requires n < |reasons|
    ensures var before, reason := Changes(reasons[..n]), reasons[n];
            Changes(reasons[..n + 1]) ==
            if reason == "" || (before != [] && before[|before| - 1] == reason) then before else before + [reason]
  {
    assert reasons[..n + 1] == reasons[..n] + [reasons[n]];
    OneMoreFound(reasons[..n], reasons[n]);
  }

  /** The last change is the last reason that is not empty. */
  lemma {:induction false} LastChange(reasons: seq<string>, n: nat) returns (a: nat)
    requires n <= |reasons|
    ensures Blocks(reasons, n) == 0 ==> AreEmpty(reasons, 0, n)
    ensures Blocks(reasons, n) > 0 ==>
              && a < n && reasons[a] != "" && AreEmpty(reasons, a + 1, n)
              && Changes(reasons[..n])[Blocks(reasons, n) - 1] == reasons[a]
  {
    a := 0;
    if n > 0 {
      NextChange(reasons, n - 1);
      a := LastChange(reasons, n - 1);
      if reasons[n - 1] != "" {
        a := n - 1;
      }
    }
  }

  lemma BlocksGrowAtChanges(reasons: seq<string>, n: nat)
    requires n < |reasons|
    ensures Blocks(reasons, n + 1) == Blocks(reasons, n) + (if IsChange(reasons, n) then 1 else 0)
    ensures Changes(reasons[..n]) <= Changes(reasons[..n + 1])
  {
    NextChange(reasons, n);
    var a := LastChange(reasons, n);
    if Blocks(reasons, n) > 0 && reasons[n] != "" && reasons[a] != reasons[n] {
      forall b | 0 <= b < n && reasons[b] != "" && AreEmpty(reasons, b + 1, n) ensures b == a {
      }
    }
  }

  lemma {:induction false} BlocksGrow(reasons: seq<string>, n: nat, m: nat)
    requires n <= m <= |reasons|
    ensures Changes(reasons[..n]) <= Changes(reasons[..m])
    ensures Blocks(reasons, n) == Blocks(reasons, m) <==> forall i | n <= i < m :: !IsChange(reasons, i)
    decreases m
  {
    if n < m {
      BlocksGrow(reasons, n, m - 1);
      BlocksGrowAtChanges(reasons, m - 1);
    }
  }

  lemma {:induction false} ChangesAreNotEmpty(found: seq<string>)
    ensures "" !in Changes(found)
  {
    if found != [] {
      ChangesAreNotEmpty(found[..|found| - 1]);
    }
  }

  lemma {:induction false} NeighboursDiffer(found: seq<string>, k: nat)
    requires 0 < k < |Changes(found)|
    ensures Changes(found)[k - 1] != Changes(found)[k]
  {
    var shorter := found[..|found| - 1];
    if k < |Changes(shorter)| {
      NeighboursDiffer(shorter, k);
    }
  }

  /** Later reasons change nothing about the looks so far. */
  lemma LooksStay(before: seq<string>, after: seq<string>, looks: seq<nat>)
    requires before <= after && AreLooks(before, looks)
    ensures AreLooks(after, looks) && FoundAt(after, looks) == FoundAt(before, looks)
  {
  }

  /** A look prints the last reason when it is there and differs from the one printed last. */
  lemma OneMoreLookAt(reasons: seq<string>, looks: seq<nat>)
    requires AreLooks(reasons, looks)
    ensures var more, last := looks + [|reasons|], if reasons == [] then "" else reasons[|reasons| - 1];
            var printed := Changes(FoundAt(reasons, looks));
            && AreLooks(reasons, more)
            && Changes(FoundAt(reasons, more)) ==
               if last == "" then printed else Printed(printed, last)
  {
    hide Changes;
    var found, last := FoundAt(reasons, looks), if reasons == [] then "" else reasons[|reasons| - 1];
    assert FoundAt(reasons, looks + [|reasons|]) == found + [last];
    OneMoreFound(found, last);
  }

  // ----- which blocks have been looked at -----

  /** The blocks, numbered from one, in which the last reason lay at a look. */
  function Seen(reasons: seq<string>, looks: seq<nat>): set<nat>
    requires AreLooks(reasons, looks)
  {
    if looks == [] then {}
    else
      var before, last := Seen(reasons, looks[..|looks| - 1]), looks[|looks| - 1];
      if last == 0 || reasons[last - 1] == "" then before else before + {Blocks(reasons, last)}
  }

  /** The latest block seen, zero before any. */
  function Latest(reasons: seq<string>, looks: seq<nat>): nat
    requires AreLooks(reasons, looks)
  {
    if looks == [] then 0
    else
      var last := looks[|looks| - 1];
      if last == 0 || reasons[last - 1] == "" then Latest(reasons, looks[..|looks| - 1]) else Blocks(reasons, last)
  }

  /** What has been printed shows of the blocks of `changes`: the latest one seen is on show, no more lines than
      blocks seen, and if none before the latest was missed, exactly these. */
  ghost predicate Shows(printed: seq<string>, changes: seq<string>, seen: set<nat>, latest: nat) {
    && latest <= |changes|
    && (forall k | k in seen :: 1 <= k <= latest)
    && (if latest == 0 then printed == []
        else latest in seen && printed != [] && printed[|printed| - 1] == changes[latest - 1])
    && |printed| <= |seen|
    && ((forall k | 1 <= k <= latest :: k in seen) ==> printed == changes[..latest])
  }

  lemma OneMoreShown(printed: seq<string>, changes: seq<string>, seen: set<nat>, latest: nat, now: nat)
    requires Shows(printed, changes, seen, latest) && latest <= now <= |changes| && now > 0
    requires forall k | 0 < k < |changes| :: changes[k - 1] != changes[k]
    ensures var more := Printed(printed, changes[now - 1]);
            Shows(more, changes, seen + {now}, now)
  {
    if latest < now {
      assert now !in seen && |seen + {now}| == |seen| + 1;
      if forall k | 1 <= k <= now :: k in seen + {now} {
        assert forall k | 1 <= k <= now - 1 :: k in seen + {now} && k in seen;
        assert now == 1 || now - 1 in seen;
        assert changes[..latest] + [changes[latest]] == changes[..now];
      }
    } else {
      assert seen + {now} == seen;
    }
  }

  lemma ReasonOfBlock(reasons: seq<string>, n: nat)
    requires 0 < n <= |reasons| && reasons[n - 1] != ""
    ensures 0 < Blocks(reasons, n) <= |Changes(reasons)|
    ensures Changes(reasons)[Blocks(reasons, n) - 1] == reasons[n - 1]
  {
    NextChange(reasons, n - 1);
    BlocksGrow(reasons, n, |reasons|);
    assert reasons[..|reasons|] == reasons;
  }

  lemma {:induction false} LatestIsReached(reasons: seq<string>, looks: seq<nat>, n: nat)
    requires AreLooks(reasons, looks) && n <= |reasons| && forall l | l in looks :: l <= n
    ensures Latest(reasons, looks) <= Blocks(reasons, n)
  {
    if looks != [] {
      var last := looks[|looks| - 1];
      assert last in looks;
      LatestIsReached(reasons, looks[..|looks| - 1], n);
      BlocksGrow(reasons, last, n);
    }
  }

  lemma LastIsSeen(reasons: seq<string>, looks: seq<nat>)
    requires AreLooks(reasons, looks) && looks != []
    ensures var shorter, last := looks[..|looks| - 1], looks[|looks| - 1];
            if last == 0 || reasons[last - 1] == "" then
              Seen(reasons, looks) == Seen(reasons, shorter) && Latest(reasons, looks) == Latest(reasons, shorter)
            else
              && Seen(reasons, looks) == Seen(reasons, shorter) + {Blocks(reasons, last)}
              && Latest(reasons, looks) == Blocks(reasons, last)
  {
  }

  lemma {:induction false} LooksShow(reasons: seq<string>, looks: seq<nat>)
    requires AreLooks(reasons, looks)
    ensures Shows(Changes(FoundAt(reasons, looks)), Changes(reasons), Seen(reasons, looks), Latest(reasons, looks))
  {
    if looks == [] {
      assert FoundAt(reasons, looks) == [];
    } else {
      hide Changes, Shows, Blocks, Seen, Latest, FoundAt, Printed;
      var shorter, last := looks[..|looks| - 1], looks[|looks| - 1];
      LooksShow(reasons, shorter);
      LastLook(reasons, looks);
      LastIsSeen(reasons, looks);
      if last > 0 && reasons[last - 1] != "" {
        LatestIsReached(reasons, shorter, last);
        OneMoreLook(Changes(FoundAt(reasons, shorter)), reasons, Seen(reasons, shorter), Latest(reasons, shorter),
                    last);
      }
    }
  }

  lemma LastLook(reasons: seq<string>, looks: seq<nat>)
    requires AreLooks(reasons, looks) && looks != []
    ensures var last, before := looks[|looks| - 1], Changes(FoundAt(reasons, looks[..|looks| - 1]));
            Changes(FoundAt(reasons, looks)) ==
            if last == 0 || reasons[last - 1] == "" then before else Printed(before, reasons[last - 1])
  {
    hide Changes;
    var last := looks[|looks| - 1];
    var found, reason := FoundAt(reasons, looks[..|looks| - 1]), if last == 0 then "" else reasons[last - 1];
    assert FoundAt(reasons, looks) == found + [reason];
    OneMoreFound(found, reason);
  }

  lemma OneMoreLook(printed: seq<string>, reasons: seq<string>, seen: set<nat>, latest: nat, last: nat)
    requires 0 < last <= |reasons| && reasons[last - 1] != "" && latest <= Blocks(reasons, last)
    requires Shows(printed, Changes(reasons), seen, latest)
    ensures var more := Printed(printed, reasons[last - 1]);
            Shows(more, Changes(reasons), seen + {Blocks(reasons, last)}, Blocks(reasons, last))
  {
    ReasonOfBlock(reasons, last);
    hide Shows, Printed;
    forall k | 0 < k < |Changes(reasons)| ensures Changes(reasons)[k - 1] != Changes(reasons)[k] {
      NeighboursDiffer(reasons, k);
    }
    OneMoreShown(printed, Changes(reasons), seen, latest, Blocks(reasons, last));
  }

  lemma {:induction false} IntervalSize(s: set<nat>, m: nat)
    requires forall k | k in s :: 1 <= k <= m
    ensures |s| <= m
    ensures |s| == m ==> forall k | 1 <= k <= m :: k in s
  {
    if m == 0 {
      assert s == {};
    } else {
      var rest := s - {m};
      IntervalSize(rest, m - 1);
      if m in s {
        assert s == rest + {m};
      } else {
        assert s == rest;
      }
    }
  }

  /** Everything is shown exactly when every block has been seen. */
  lemma AllIsShownIff(printed: seq<string>, changes: seq<string>, seen: set<nat>, latest: nat)
    requires Shows(printed, changes, seen, latest)
    ensures printed == changes <==> forall k | 1 <= k <= |changes| :: k in seen
  {
    IntervalSize(seen, |changes|);
    if forall k | 1 <= k <= |changes| :: k in seen {
      assert |changes| > 0 ==> |changes| in seen;
      assert changes[..|changes|] == changes;
    }
  }

  lemma {:induction false} SeenIff(reasons: seq<string>, looks: seq<nat>, k: nat)
    requires AreLooks(reasons, looks)
    ensures k in Seen(reasons, looks) <==>
            exists n: nat :: n in looks && 0 < n && reasons[n - 1] != "" && Blocks(reasons, n) == k
  {
    if looks != [] {
      var shorter, last := looks[..|looks| - 1], looks[|looks| - 1];
      SeenIff(reasons, shorter, k);
      assert forall n :: n in looks <==> n in shorter || n == last;
    }
  }

  /** Every block has a beginning. */
  lemma {:induction false} BlockBegins(reasons: seq<string>, n: nat, k: nat) returns (b: nat)
    requires n <= |reasons| && 1 <= k <= Blocks(reasons, n)
    ensures b < n && IsChange(reasons, b) && Blocks(reasons, b + 1) == k
  {
    BlocksGrowAtChanges(reasons, n - 1);
    if k == Blocks(reasons, n) && IsChange(reasons, n - 1) {
      b := n - 1;
    } else {
      b := BlockBegins(reasons, n - 1, k);
    }
  }

  lemma LiesInBlockIff(reasons: seq<string>, b: nat, n: nat)
    requires IsChange(reasons, b) && n <= |reasons|
    ensures LiesInBlock(reasons, b, n) <==>
            0 < n && reasons[n - 1] != "" && Blocks(reasons, n) == Blocks(reasons, b + 1)
  {
    BlocksGrowAtChanges(reasons, b);
    if b < n {
      BlocksGrow(reasons, b + 1, n);
    } else {
      BlocksGrow(reasons, n, b);
    }
  }

  ghost predicate IsLookedInto(reasons: seq<string>, looks: seq<nat>, b: nat) {
    exists n: nat :: n in looks && LiesInBlock(reasons, b, n)
  }

  /** For every block of equal reasons there is a look at which the last reason lies in this block. */
  ghost predicate AllAreLookedInto(reasons: seq<string>, looks: seq<nat>) {
    forall b: nat | IsChange(reasons, b) :: IsLookedInto(reasons, looks, b)
  }

  /** Looking from time to time prints exactly the changes of the reasons if and only if every block of equal
      reasons is looked into. */
  lemma EveryChangeIsPrintedIff(reasons: seq<string>, looks: seq<nat>)
    requires AreLooks(reasons, looks)
    ensures Changes(FoundAt(reasons, looks)) == Changes(reasons) <==> AllAreLookedInto(reasons, looks)
  {
    hide Changes, Seen, Latest, Shows;
    var printed, changes := Changes(FoundAt(reasons, looks)), Changes(reasons);
    LooksShow(reasons, looks);
    AllIsShownIff(printed, changes, Seen(reasons, looks), Latest(reasons, looks));
    if printed == changes {
      AllSeenAreLookedInto(reasons, looks);
    }
    if AllAreLookedInto(reasons, looks) {
      AllLookedIntoAreSeen(reasons, looks);
    }
  }

  lemma AllSeenAreLookedInto(reasons: seq<string>, looks: seq<nat>)
    requires AreLooks(reasons, looks) && forall k | 1 <= k <= |Changes(reasons)| :: k in Seen(reasons, looks)
    ensures AllAreLookedInto(reasons, looks)
  {
    hide Changes, Seen, IsLookedInto;
    forall b: nat | IsChange(reasons, b) ensures IsLookedInto(reasons, looks, b) {
      BlockIsSeenIff(reasons, looks, b);
    }
  }

  lemma AllLookedIntoAreSeen(reasons: seq<string>, looks: seq<nat>)
    requires AreLooks(reasons, looks) && AllAreLookedInto(reasons, looks)
    ensures forall k | 1 <= k <= |Changes(reasons)| :: k in Seen(reasons, looks)
  {
    hide Changes, Seen, IsLookedInto;
    assert reasons[..|reasons|] == reasons;
    forall k | 1 <= k <= |Changes(reasons)| ensures k in Seen(reasons, looks) {
      var b := BlockBegins(reasons, |reasons|, k);
      BlockIsSeenIff(reasons, looks, b);
    }
  }

  lemma BlockIsSeenIff(reasons: seq<string>, looks: seq<nat>, b: nat)
    requires AreLooks(reasons, looks) && IsChange(reasons, b)
    ensures b < |reasons| && 1 <= Blocks(reasons, b + 1) <= |Changes(reasons)|
    ensures Blocks(reasons, b + 1) in Seen(reasons, looks) <==> IsLookedInto(reasons, looks, b)
  {
    BlocksGrowAtChanges(reasons, b);
    BlocksGrow(reasons, b + 1, |reasons|);
    assert reasons[..|reasons|] == reasons;
    SeenIff(reasons, looks, Blocks(reasons, b + 1));
    hide Changes, Seen, IsChange, LiesInBlock;
    forall n | n in looks
      ensures LiesInBlock(reasons, b, n) <==>
              0 < n && reasons[n - 1] != "" && Blocks(reasons, n) == Blocks(reasons, b + 1)
    {
      LiesInBlockIff(reasons, b, n);
    }
  }
}
