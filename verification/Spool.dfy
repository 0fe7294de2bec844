/** How many runs of each level the spool keeps: a counter of spills, written in base sixteen. */
module Tiers {

  /** How many runs one merge reads at once. */
  const FAN_IN: nat := 16

  ghost function Same(count: nat, level: nat): (s: seq<nat>)
    ensures |s| == count && forall i {:trigger s[i]} :: 0 <= i < count ==> s[i] == level
  {
    if count == 0 then [] else Same(count - 1, level) + [level]
  }

  /** The levels of the runs after `n` spills, the lowest level there is being `level`. */
  ghost function Levels(n: nat, level: nat): seq<nat> {
    if n == 0 then [] else Levels(n / FAN_IN, level + 1) + Same(n % FAN_IN, level)
  }

  lemma {:induction false} LowestLevel(n: nat, level: nat)
    ensures forall i :: 0 <= i < |Levels(n, level)| ==> Levels(n, level)[i] >= level
    decreases n
  {
    if n != 0 {
      LowestLevel(n / FAN_IN, level + 1);
    }
  }

  /** The largest runs come first. */
  lemma {:induction false} LevelsFall(n: nat, level: nat)
    ensures forall i, j :: 0 <= i < j < |Levels(n, level)| ==> Levels(n, level)[i] >= Levels(n, level)[j]
    decreases n
  {
    if n != 0 {
      LevelsFall(n / FAN_IN, level + 1);
      LowestLevel(n / FAN_IN, level + 1);
    }
  }

  ghost predicate AllAre(s: seq<nat>, from: nat, level: nat) {
    forall i :: from <= i < |s| ==> s[i] == level
  }

  /** One more run, where there is room for it on its level. */
  lemma RoomForOne(n: nat, level: nat)
    requires n % FAN_IN < FAN_IN - 1
    ensures Levels(n, level) + [level] == Levels(n + 1, level)
    ensures var s := Levels(n, level) + [level]; |s| >= FAN_IN ==> !AllAre(s, |s| - FAN_IN, s[|s| - FAN_IN])
  {
    var s := Levels(n, level) + [level];
    var d := n % FAN_IN;
    assert (n + 1) / FAN_IN == n / FAN_IN && (n + 1) % FAN_IN == d + 1;
    var above := Levels(n / FAN_IN, level + 1);
    if n == 0 {
      assert above == [];
      assert Same(1, level) == Same(0, level) + [level];
    }
    assert s == above + Same(d + 1, level) by {
      assert Same(d + 1, level) == Same(d, level) + [level];
    }
    LowestLevel(n / FAN_IN, level + 1);
    if |s| >= FAN_IN {
      var tail := |s| - FAN_IN;
      assert s[tail] == above[tail] && s[|s| - 1] == level;
    }
  }

  /** One more run makes a full level: the sixteen of them become one of the next level. */
  lemma FullLevel(n: nat, level: nat)
    requires n % FAN_IN == FAN_IN - 1
    ensures var s := Levels(n, level) + [level];
            |s| >= FAN_IN && AllAre(s, |s| - FAN_IN, level) && s[..|s| - FAN_IN] == Levels(n / FAN_IN, level + 1)
    ensures Levels(n + 1, level) == Levels(n / FAN_IN + 1, level + 1)
  {
    var s := Levels(n, level) + [level];
    var above := Levels(n / FAN_IN, level + 1);
    assert (n + 1) / FAN_IN == n / FAN_IN + 1 && (n + 1) % FAN_IN == 0;
    assert Same(0, level) == [];
    assert s == above + Same(FAN_IN - 1, level) + [level];
    assert |s| == |above| + FAN_IN;
    assert s[..|above|] == above;
  }

  ghost function Power(k: nat): (p: nat)
    ensures p > 0
  {
    if k == 0 then 1 else FAN_IN * Power(k - 1)
  }

  /** Digit `k` of a number in base sixteen, the last digit being digit 0. */
  ghost function Digit(n: nat, k: nat): nat
    decreases k
  {
    if k == 0 then n % 16 else Digit(n / 16, k - 1)
  }

  ghost function Count(s: seq<nat>, x: nat): nat {
    if s == [] then 0 else Count(s[..|s| - 1], x) + if s[|s| - 1] == x then 1 else 0
  }

  lemma {:induction false} CountJoin(s: seq<nat>, t: seq<nat>, x: nat)
    ensures Count(s + t, x) == Count(s, x) + Count(t, x)
  {
    if t == [] {
      assert s + t == s;
    } else {
      CountJoin(s, t[..|t| - 1], x);
      assert (s + t)[..|s + t| - 1] == s + t[..|t| - 1];
    }
  }

  lemma {:induction false} CountSame(count: nat, level: nat, x: nat)
    ensures Count(Same(count, level), x) == if x == level then count else 0
  {
    if count > 0 {
      CountSame(count - 1, level, x);
      assert Same(count, level)[..count - 1] == Same(count - 1, level);
    }
  }

  lemma {:induction false} CountBelow(s: seq<nat>, x: nat)
    requires forall i :: 0 <= i < |s| ==> s[i] > x
    ensures Count(s, x) == 0
  {
    if s != [] {
      CountBelow(s[..|s| - 1], x);
    }
  }

  lemma {:induction false} DigitOfZero(k: nat)
    ensures Digit(0, k) == 0
  {
    if k > 0 {
      DigitOfZero(k - 1);
    }
  }

  /** The runs of a level are one base-sixteen digit of the number of spills. */
  lemma {:induction false} RunsAreDigits(n: nat, level: nat, k: nat)
    ensures Count(Levels(n, level), level + k) == Digit(n, k)
    decreases n
  {
    var above := Levels(n / FAN_IN, level + 1);
    if n == 0 {
      DigitOfZero(k);
    } else {
      CountJoin(above, Same(n % FAN_IN, level), level + k);
      CountSame(n % FAN_IN, level, level + k);
      if k == 0 {
        LowestLevel(n / FAN_IN, level + 1);
        CountBelow(above, level);
      } else {
        RunsAreDigits(n / FAN_IN, level + 1, k - 1);
      }
    }
  }

  /** A single run is left exactly after a power of sixteen spills, and its level is the exponent. */
  lemma {:induction false} PowerIsOneRun(k: nat, level: nat)
    ensures Levels(Power(k), level) == [level + k]
    decreases k
  {
    if k > 0 {
      PowerIsOneRun(k - 1, level + 1);
      assert Power(k) / FAN_IN == Power(k - 1) && Power(k) % FAN_IN == 0;
    } else {
      assert Levels(1, level) == Levels(0, level + 1) + Same(1, level);
    }
  }

  lemma {:induction false} OneRunIsPower(n: nat, level: nat)
    requires |Levels(n, level)| == 1
    ensures Levels(n, level)[0] >= level && n == Power(Levels(n, level)[0] - level)
    decreases n
  {
    var above := Levels(n / FAN_IN, level + 1);
    if above == [] {
      assert n / FAN_IN == 0 by {
        if n / FAN_IN > 0 {
          SomeRun(n / FAN_IN, level + 1);
        }
      }
    } else {
      OneRunIsPower(n / FAN_IN, level + 1);
    }
  }

  lemma {:induction false} SomeRun(n: nat, level: nat)
    requires n > 0
    ensures Levels(n, level) != []
    decreases n
  {
    if n >= FAN_IN {
      SomeRun(n / FAN_IN, level + 1);
    }
  }

  /** The number of spills is sixteen to a power of at least two. */
  ghost predicate IsBigPower(n: nat) {
    exists k: nat :: k >= 2 && IsPower(n, k)
  }

  ghost predicate IsPower(n: nat, k: nat) {
    n == Power(k)
  }

  /** No level is reached before there are spills enough for it, and few runs are kept. */
  lemma {:induction false} LevelsAreFew(n: nat, level: nat, top: nat)
    requires n < Power(top)
    ensures |Levels(n, level)| <= (FAN_IN - 1) * top
    ensures forall i :: 0 <= i < |Levels(n, level)| ==> Levels(n, level)[i] < level + top
    decreases n
  {
    if n != 0 {
      assert top > 0;
      LevelsAreFew(n / FAN_IN, level + 1, top - 1);
    }
  }
}

/**
 The record spool: records are buffered, spilled to a file as sorted runs, merged as the runs pile up,
 and handed out in order at the end.
 */
module Spooling {
  import opened Base
  import opened Encodings
  import opened Records
  import opened Merging
  import opened Tiers

  datatype Run = Run(start: nat, end: nat, level: nat)

  const COMPACT_AT: nat := 2

  function LevelsOf(runs: seq<Run>): (s: seq<nat>)
    ensures |s| == |runs| && forall i {:trigger s[i]} :: 0 <= i < |s| ==> s[i] == runs[i].level
  {
    seq(|runs|, i requires 0 <= i < |runs| => runs[i].level)
  }

  function RunLen(run: Run): nat {
    if run.start <= run.end then run.end - run.start else 0
  }

  /** Bytes in live runs. */
  function Live(runs: seq<Run>): nat {
    if runs == [] then 0 else Live(runs[..|runs| - 1]) + RunLen(runs[|runs| - 1])
  }

  ghost function Times(n: nat, times: nat): nat {
    if times == 0 then 0 else Times(n, times - 1) + n
  }

  lemma {:induction false} TimesSum(a: nat, b: nat, times: nat)
    ensures Times(a + b, times) == Times(a, times) + Times(b, times)
  {
    if times > 0 {
      TimesSum(a, b, times - 1);
    }
  }

  lemma {:induction false} TimesIs(n: nat, times: nat)
    ensures Times(n, times) == n * times
  {
    if times > 0 {
      TimesIs(n, times - 1);
      assert n * times == n * (times - 1) + n;
    }
  }

  lemma {:induction false} TimesGrows(n: nat, times: nat, more: nat)
    requires times <= more
    ensures Times(n, times) <= Times(n, more)
    decreases more
  {
    if times < more {
      TimesGrows(n, times, more - 1);
    }
  }

  /** Bytes in live runs, each counted as often as it has been merged. */
  ghost function Weight(runs: seq<Run>): nat {
    if runs == [] then 0 else Weight(runs[..|runs| - 1]) + Times(RunLen(runs[|runs| - 1]), runs[|runs| - 1].level)
  }

  lemma LiveMore(runs: seq<Run>, run: Run)
    ensures Live(runs + [run]) == Live(runs) + RunLen(run)
    ensures Weight(runs + [run]) == Weight(runs) + Times(RunLen(run), run.level)
  {
    assert (runs + [run])[..|runs|] == runs;
  }

  lemma {:induction false} LiveSplit(runs: seq<Run>, at: nat)
    requires at <= |runs|
    ensures Live(runs) == Live(runs[..at]) + Live(runs[at..])
    ensures Weight(runs) == Weight(runs[..at]) + Weight(runs[at..])
    decreases |runs|
  {
    var n := |runs| - 1;
    if at == |runs| {
      assert runs[..at] == runs && runs[at..] == [];
    } else {
      LiveSplit(runs[..n], at);
      assert runs[..n][..at] == runs[..at] && runs[..n][at..] == runs[at..][..n - at];
    }
  }

  lemma {:induction false} WeightOfLevel(runs: seq<Run>, level: nat)
    requires forall i :: 0 <= i < |runs| ==> runs[i].level == level
    ensures Weight(runs) == Times(Live(runs), level)
  {
    if runs == [] {
      TimesIs(0, level);
    } else {
      var n := |runs| - 1;
      WeightOfLevel(runs[..n], level);
      TimesSum(Live(runs[..n]), RunLen(runs[n]), level);
    }
  }

  lemma {:induction false} WeightBound(runs: seq<Run>, top: nat)
    requires forall i :: 0 <= i < |runs| ==> runs[i].level <= top
    ensures Weight(runs) <= Times(Live(runs), top)
  {
    if runs != [] {
      var n := |runs| - 1;
      WeightBound(runs[..n], top);
      TimesGrows(RunLen(runs[n]), runs[n].level, top);
      TimesSum(Live(runs[..n]), RunLen(runs[n]), top);
    }
  }

  lemma {:induction false} SameRuns(a: seq<Run>, b: seq<Run>)
    requires |a| == |b| && forall i :: 0 <= i < |a| ==> RunLen(a[i]) == RunLen(b[i]) && a[i].level == b[i].level
    ensures Live(a) == Live(b) && Weight(a) == Weight(b)
  {
    if a != [] {
      SameRuns(a[..|a| - 1], b[..|b| - 1]);
    }
  }

  // ---------------------------------------------------------------- what the runs hold

  ghost predicate RunOk(e: Encoding, file: seq<Byte>, writePos: nat, run: Run, rs: seq<Rec>) {
    && run.end <= writePos && Stored(RecordBytes, file, run.start, run.end, rs)
    && Sorted(e, rs) && Spoolable(e, rs)
  }

  /** Runs lie one behind the other, before where the next one will be written. */
  ghost predicate Held(e: Encoding, file: seq<Byte>, writePos: nat, runs: seq<Run>, contents: seq<seq<Rec>>) {
    && TotalOrder(e) && writePos <= |file| && |runs| == |contents|
    && (forall i {:trigger RunOk(e, file, writePos, runs[i], contents[i])} :: 0 <= i < |runs| ==>
          RunOk(e, file, writePos, runs[i], contents[i]))
    && (forall i, j {:trigger InFront(runs[i], runs[j])} :: 0 <= i < j < |runs| ==> InFront(runs[i], runs[j]))
  }

  ghost predicate InFront(a: Run, b: Run) {
    a.end <= b.start
  }

  function ReadersOf(runs: seq<Run>): (rs: seq<RunReader>)
    ensures |rs| == |runs| && forall i {:trigger rs[i]} :: 0 <= i < |rs| ==>
                                      rs[i] == RunReader(runs[i].start, runs[i].end)
  {
    seq(|runs|, i requires 0 <= i < |runs| => RunReader(runs[i].start, runs[i].end))
  }

  lemma HeldReads(e: Encoding, file: seq<Byte>, writePos: nat, runs: seq<Run>, contents: seq<seq<Rec>>)
    requires Held(e, file, writePos, runs, contents)
    ensures RunsOk(e, FileOf(file), ReadersOf(runs), contents)
  {
    FileReadsBack(file);
    forall i | 0 <= i < |runs|
      ensures Holds(FileOf(file), runs[i].start, runs[i].end, contents[i])
      ensures Sorted(e, contents[i]) && Spoolable(e, contents[i])
    {
      assert RunOk(e, file, writePos, runs[i], contents[i]);
      StoredHolds(RecordBytes, FileOf(file), file, runs[i].start, runs[i].end, contents[i]);
    }
  }

  lemma HeldPart(e: Encoding, file: seq<Byte>, writePos: nat, runs: seq<Run>, contents: seq<seq<Rec>>, from: nat,
                 to: nat)
    requires Held(e, file, writePos, runs, contents) && from <= to <= |runs|
    ensures Held(e, file, writePos, runs[from..to], contents[from..to])
  {
    var some, held := runs[from..to], contents[from..to];
    forall i | 0 <= i < |some|
      ensures RunOk(e, file, writePos, some[i], held[i])
    {
      assert RunOk(e, file, writePos, runs[from + i], contents[from + i]);
    }
    forall i, j | 0 <= i < j < |some|
      ensures InFront(some[i], some[j])
    {
      assert InFront(runs[from + i], runs[from + j]);
    }
  }

  /** Writing behind the runs leaves every one of them as it was. */
  lemma HeldAppend(e: Encoding, file: seq<Byte>, writePos: nat, runs: seq<Run>, contents: seq<seq<Rec>>,
                   b: seq<Byte>, level: nat, out: seq<Rec>)
    requires Held(e, file, writePos, runs, contents)
    requires b == Written(RecordBytes, out) && Sorted(e, out) && Spoolable(e, out)
    ensures Held(e, Overwrite(file, writePos, b), writePos + |b|,
                 runs + [Run(writePos, writePos + |b|, level)], contents + [out])
  {
    var file', run := Overwrite(file, writePos, b), Run(writePos, writePos + |b|, level);
    var runs', contents' := runs + [run], contents + [out];
    forall i | 0 <= i < |runs'|
      ensures RunOk(e, file', writePos + |b|, runs'[i], contents'[i])
    {
      if i < |runs| {
        assert RunOk(e, file, writePos, runs[i], contents[i]);
        StoredStill(RecordBytes, file, file', writePos, runs[i].start, runs[i].end, contents[i]);
      }
    }
    forall i, j | 0 <= i < j < |runs'|
      ensures InFront(runs'[i], runs'[j])
    {
      if j < |runs| {
        assert InFront(runs[i], runs[j]);
      } else {
        assert RunOk(e, file, writePos, runs[i], contents[i]);
      }
    }
  }

  lemma StoredStill(w: Rec -> seq<Byte>, file: seq<Byte>, file': seq<Byte>, writePos: nat, start: nat, end: nat,
                    rs: seq<Rec>)
    requires Stored(w, file, start, end, rs) && end <= writePos <= |file| && writePos <= |file'|
    requires file'[..writePos] == file[..writePos]
    ensures Stored(w, file', start, end, rs)
  {
    assert file'[start..end] == file'[..writePos][start..end] == file[start..end];
  }

  // ---------------------------------------------------------------- sizes

  lemma {:induction false} WrittenJoin(w: Rec -> seq<Byte>, a: seq<Rec>, b: seq<Rec>)
    ensures |Written(w, a + b)| == |Written(w, a)| + |Written(w, b)|
  {
    if b == [] {
      assert a + b == a;
    } else {
      var n := |b| - 1;
      WrittenJoin(w, a, b[..n]);
      assert (a + b)[..|a| + n] == a + b[..n];
    }
  }

  lemma TakenOut(w: Rec -> seq<Byte>, b: seq<Rec>, k: nat, rest: seq<Rec>)
    requires k < |b| && rest == b[..k] + b[k + 1..]
    ensures multiset(rest) == multiset(b) - multiset{b[k]}
    ensures |Written(w, b)| == |Written(w, rest)| + |w(b[k])|
  {
    assert b == b[..k] + ([b[k]] + b[k + 1..]);
    WrittenJoin(w, b[..k], b[k + 1..]);
    WrittenJoin(w, b[..k], [b[k]] + b[k + 1..]);
    WrittenJoin(w, [b[k]], b[k + 1..]);
    WrittenMore(w, [], b[k]);
    assert [] + [b[k]] == [b[k]];
  }

  /** Reordered records take as many bytes. */
  lemma {:induction false} SameSize(w: Rec -> seq<Byte>, a: seq<Rec>, b: seq<Rec>)
    requires multiset(a) == multiset(b)
    ensures |Written(w, a)| == |Written(w, b)|
    decreases |a|
  {
    if a == [] {
      assert |b| == |multiset(b)| == 0;
    } else {
      assert a[0] in multiset(b);
      var k :| 0 <= k < |b| && b[k] == a[0];
      TakenOut(w, a, 0, a[..0] + a[1..]);
      TakenOut(w, b, k, b[..k] + b[k + 1..]);
      SameSize(w, a[..0] + a[1..], b[..k] + b[k + 1..]);
    }
  }

  ghost function Joined(qs: seq<seq<Rec>>): seq<Rec> {
    if qs == [] then [] else Joined(qs[..|qs| - 1]) + qs[|qs| - 1]
  }

  lemma {:induction false} JoinedBag(qs: seq<seq<Rec>>)
    ensures multiset(Joined(qs)) == Bag(qs)
  {
    if qs != [] {
      var n := |qs| - 1;
      JoinedBag(qs[..n]);
      BagMore(qs[..n], qs[n]);
      assert qs == qs[..n] + [qs[n]];
    }
  }

  ghost predicate AsLong(w: Rec -> seq<Byte>, runs: seq<Run>, contents: seq<seq<Rec>>) {
    |runs| == |contents| && forall i :: 0 <= i < |runs| ==> RunLen(runs[i]) == |Written(w, contents[i])|
  }

  lemma {:induction false} LiveIsSize(w: Rec -> seq<Byte>, runs: seq<Run>, contents: seq<seq<Rec>>)
    requires AsLong(w, runs, contents)
    ensures Live(runs) == |Written(w, Joined(contents))|
    decreases |runs|
  {
    if runs != [] {
      var n := |runs| - 1;
      LiveIsSize(w, runs[..n], contents[..n]);
      WrittenJoin(w, Joined(contents[..n]), contents[n]);
    }
  }

  /** Merged runs take as many bytes as they did. */
  lemma MergedSize(e: Encoding, file: seq<Byte>, writePos: nat, runs: seq<Run>, contents: seq<seq<Rec>>, out: seq<Rec>)
    requires Held(e, file, writePos, runs, contents) && multiset(out) == Bag(contents)
    ensures |Written(RecordBytes, out)| == Live(runs)
  {
    forall i | 0 <= i < |runs|
      ensures RunLen(runs[i]) == |Written(RecordBytes, contents[i])|
    {
      assert RunOk(e, file, writePos, runs[i], contents[i]);
    }
    LiveIsSize(RecordBytes, runs, contents);
    JoinedBag(contents);
    SameSize(RecordBytes, out, Joined(contents));
  }

  // ---------------------------------------------------------------- bytes written

  /** The spills, oldest first, and where those of each run start. */
  datatype History = History(spills: seq<seq<Rec>>, starts: seq<nat>)

  /** Where the bytes written went: runs spilled, runs merged, runs copied to a fresh file. */
  datatype Ledger = Ledger(spilled: nat, merged: nat, copied: nat, history: History)

  /** Every byte is live once; each merge of a run is paid for by its level, and each copy by the dead
      bytes it leaves behind. */
  ghost predicate Balanced(l: Ledger, live: nat, weight: nat, writePos: nat, written: nat) {
    && live == l.spilled && weight == l.merged
    && written == l.spilled + l.merged + l.copied
    && l.spilled <= writePos && l.copied + (writePos - l.spilled) <= l.merged
  }

  /** Merged into one run of the next level, runs weigh as much more as there are bytes in them. */
  lemma MergedWeight(runs: seq<Run>, at: nat, level: nat, run: Run)
    requires at <= |runs| && forall i :: at <= i < |runs| ==> runs[i].level == level
    requires run.level == level + 1 && RunLen(run) == Live(runs[at..])
    ensures Live(runs[..at] + [run]) == Live(runs)
    ensures Weight(runs[..at] + [run]) == Weight(runs) + RunLen(run)
  {
    LiveSplit(runs, at);
    TailWeight(runs[at..], level, run);
    LiveMore(runs[..at], run);
  }

  lemma TailWeight(tail: seq<Run>, level: nat, run: Run)
    requires forall i :: 0 <= i < |tail| ==> tail[i].level == level
    requires run.level == level + 1 && RunLen(run) == Live(tail)
    ensures Times(RunLen(run), run.level) == Weight(tail) + RunLen(run)
  {
    WeightOfLevel(tail, level);
  }

  /** All that has been written is at most the spilled bytes times one and twice the highest level. */
  lemma WriteBound(l: Ledger, runs: seq<Run>, writePos: nat, written: nat, n: nat, top: nat)
    requires Balanced(l, Live(runs), Weight(runs), writePos, written)
    requires LevelsOf(runs) == Levels(n, 0) && n < Power(top + 1)
    ensures written <= l.spilled * (1 + 2 * top)
    ensures |runs| <= (FAN_IN - 1) * (top + 1)
  {
    LevelsAreFew(n, 0, top + 1);
    TopLevel(runs, n, top);
    WeightBound(runs, top);
    TimesIs(Live(runs), top);
    WrittenAtMost(l, Live(runs), Weight(runs), writePos, written, top);
  }

  lemma TopLevel(runs: seq<Run>, n: nat, top: nat)
    requires LevelsOf(runs) == Levels(n, 0) && n < Power(top + 1)
    ensures forall i :: 0 <= i < |runs| ==> runs[i].level <= top
  {
    LevelsAreFew(n, 0, top + 1);
    forall i | 0 <= i < |runs|
      ensures runs[i].level <= top
    {
      assert LevelsOf(runs)[i] == runs[i].level;
    }
  }

  lemma WrittenAtMost(l: Ledger, live: nat, weight: nat, writePos: nat, written: nat, top: nat)
    requires Balanced(l, live, weight, writePos, written) && weight <= live * top
    ensures written <= l.spilled * (1 + 2 * top)
  {
    assert live * (1 + 2 * top) == live + 2 * (live * top);
  }

  // ---------------------------------------------------------------- passes over the file

  /** How many more passes over the file will come off. */
  datatype Passes = Unlimited | Left(count: nat)

  function Spend(passes: Passes): Passes {
    match passes
    case Unlimited => Unlimited
    case Left(count) => Left(if count == 0 then 0 else count - 1)
  }

  /** Merges some runs and writes what they come to at `pos` of a file. */
  method MergeOnto(e: Encoding, file: seq<Byte>, ghost writePos: nat, runs: seq<Run>, ghost contents: seq<seq<Rec>>)
    returns (b: seq<Byte>, out: seq<Rec>)
    requires Held(e, file, writePos, runs, contents)
    ensures Sorted(e, out) && Spoolable(e, out) && multiset(out) == Bag(contents)
    ensures b == Written(RecordBytes, out) && |b| == Live(runs)
  {
    HeldReads(e, file, writePos, runs, contents);
    b, out := MergeRuns(e, FileOf(file), ReadersOf(runs), RecordBytes, contents);
    MergedSize(e, file, writePos, runs, contents, out);
  }

  function MaxLevel(runs: seq<Run>): nat {
    if runs == [] then 0
    else
      var rest := MaxLevel(runs[..|runs| - 1]);
      if runs[|runs| - 1].level > rest then runs[|runs| - 1].level else rest
  }

  /** What has been merged of `runs`: the first `at` of them. */
  ghost predicate Done(runs: seq<Run>, contents: seq<seq<Rec>>, group: nat, at: nat, size: nat, next: seq<Run>,
                       contents': seq<seq<Rec>>) {
    && at <= |runs| && |runs| == |contents|
    && Bag(contents') == Bag(contents[..at]) && size == Live(runs[..at]) && Live(next) == size
    && |next| <= at && (group > 1 && |runs| > 1 && at > 0 ==> |next| < at)
    && (group == 1 ==> Copied(runs, at, next) && SameBags(contents, at, contents'))
  }

  ghost predicate Copied(runs: seq<Run>, at: nat, next: seq<Run>) {
    && at <= |runs| && |next| == at && Weight(next) == Weight(runs[..at])
    && forall i :: 0 <= i < at ==> next[i].level == runs[i].level
  }

  ghost predicate SameBags(contents: seq<seq<Rec>>, at: nat, contents': seq<seq<Rec>>) {
    && at <= |contents| && |contents'| == at
    && forall i {:trigger SameBag(contents, contents', i)} :: 0 <= i < at ==> SameBag(contents, contents', i)
  }

  ghost predicate SameBag(contents: seq<seq<Rec>>, contents': seq<seq<Rec>>, i: nat) {
    i < |contents| && i < |contents'| && multiset(contents'[i]) == multiset(contents[i])
  }

  lemma SameBagsStep(contents: seq<seq<Rec>>, at: nat, contents': seq<seq<Rec>>, out: seq<Rec>)
    requires SameBags(contents, at, contents') && at < |contents| && multiset(out) == Bag(contents[at..at + 1])
    ensures SameBags(contents, at + 1, contents' + [out])
  {
    assert contents[at..at + 1] == [] + [contents[at]];
    BagMore([], contents[at]);
    forall i | 0 <= i < at + 1
      ensures SameBag(contents, contents' + [out], i)
    {
      assert i < at ==> SameBag(contents, contents', i);
    }
  }

  lemma DoneStep(runs: seq<Run>, contents: seq<seq<Rec>>, group: nat, at: nat, to: nat, size: nat, next: seq<Run>,
                 contents': seq<seq<Rec>>,
                 run: Run, out: seq<Rec>)
    requires Done(runs, contents, group, at, size, next, contents') && at < to <= |runs| && group > 0
    requires to == if at + group < |runs| then at + group else |runs|
    requires multiset(out) == Bag(contents[at..to]) && run.start <= run.end && RunLen(run) == Live(runs[at..to])
    requires to == at + 1 ==> run.level == runs[at].level
    ensures Done(runs, contents, group, to, size + RunLen(run), next + [run], contents' + [out])
  {
    BagMore(contents', out);
    PartJoins(runs, contents, at, to);
    LiveMore(next, run);
    if group == 1 {
      CopiedStep(runs, at, next, run);
      SameBagsStep(contents, at, contents', out);
    }
  }

  lemma CopiedStep(runs: seq<Run>, at: nat, next: seq<Run>, run: Run)
    requires Copied(runs, at, next) && at < |runs| && run.level == runs[at].level
             && RunLen(run) == Live(runs[at..at + 1])
    ensures Copied(runs, at + 1, next + [run])
  {
    assert runs[at..at + 1] == [] + [runs[at]];
    assert runs[..at + 1] == runs[..at] + [runs[at]];
    LiveMore([], runs[at]);
    LiveMore(runs[..at], runs[at]);
    LiveMore(next, run);
  }

  /** Merges runs in groups into a fresh file, leaving the old one alone. */
  method MergeGroups(e: Encoding, file: seq<Byte>, ghost writePos: nat, runs: seq<Run>,
                     ghost contents: seq<seq<Rec>>, group: nat)
    returns (output: seq<Byte>, next: seq<Run>, ghost contents': seq<seq<Rec>>)
    requires Held(e, file, writePos, runs, contents) && group > 0
    ensures Held(e, output, |output|, next, contents') && Bag(contents') == Bag(contents)
    ensures |output| == Live(runs) && Live(next) == Live(runs)
    ensures group > 1 && |runs| > 1 ==> |next| < |runs|
    ensures group == 1 ==> LevelsOf(next) == LevelsOf(runs) && Weight(next) == Weight(runs)
    ensures group == 1 ==> SameBags(contents, |contents|, contents')
  {
    output, next, contents' := [], [], [];
    var at := 0;
    NoneDone(runs, contents, group);
    while at < |runs|
      invariant Held(e, output, |output|, next, contents')
      invariant Done(runs, contents, group, at, |output|, next, contents')
    {
      var to := if at + group < |runs| then at + group else |runs|;
      var run, out;
      output, run, out := MergeGroup(e, file, writePos, runs, contents, at, to, output, next, contents');
      DoneStep(runs, contents, group, at, to, run.start, next, contents', run, out);
      next, contents' := next + [run], contents' + [out];
      at := to;
    }
    AllDone(runs, contents, group, |output|, next, contents');
  }

  lemma NoneDone(runs: seq<Run>, contents: seq<seq<Rec>>, group: nat)
    requires |runs| == |contents|
    ensures Done(runs, contents, group, 0, 0, [], [])
  {
    assert runs[..0] == [] && contents[..0] == [];
  }

  lemma AllDone(runs: seq<Run>, contents: seq<seq<Rec>>, group: nat, size: nat, next: seq<Run>,
                contents': seq<seq<Rec>>)
    requires Done(runs, contents, group, |runs|, size, next, contents')
    ensures Bag(contents') == Bag(contents) && size == Live(runs) && Live(next) == Live(runs)
    ensures group > 1 && |runs| > 1 ==> |next| < |runs|
    ensures group == 1 ==> LevelsOf(next) == LevelsOf(runs) && Weight(next) == Weight(runs)
    ensures group == 1 ==> SameBags(contents, |contents|, contents')
  {
    assert runs[..|runs|] == runs && contents[..|runs|] == contents;
    if group == 1 {
      AllCopied(runs, next);
    }
  }

  lemma AllCopied(runs: seq<Run>, next: seq<Run>)
    requires Copied(runs, |runs|, next)
    ensures LevelsOf(next) == LevelsOf(runs) && Weight(next) == Weight(runs)
  {
    assert runs[..|runs|] == runs;
  }

  method MergeGroup(e: Encoding, file: seq<Byte>, ghost writePos: nat, runs: seq<Run>, ghost contents: seq<seq<Rec>>,
                    at: nat, to: nat,
                    output: seq<Byte>, ghost next: seq<Run>, ghost contents': seq<seq<Rec>>)
    returns (output': seq<Byte>, run: Run, out: seq<Rec>)
    requires Held(e, file, writePos, runs, contents) && at < to <= |runs| && Held(e, output, |output|, next, contents')
    ensures run.start == |output| && run.end == |output'| && run.start <= run.end && RunLen(run) == Live(runs[at..to])
    ensures to == at + 1 ==> run.level == runs[at].level
    ensures multiset(out) == Bag(contents[at..to]) && Held(e, output', |output'|, next + [run], contents' + [out])
  {
    var chunk := runs[at..to];
    HeldPart(e, file, writePos, runs, contents, at, to);
    var b;
    b, out := MergeOnto(e, file, writePos, chunk, contents[at..to]);
    var level := if |chunk| == 1 then chunk[0].level else MaxLevel(chunk) + 1;
    HeldAppend(e, output, |output|, next, contents', b, level, out);
    output' := Overwrite(output, |output|, b);
    run := Run(|output|, |output| + |b|, level);
  }

  lemma PartJoins(runs: seq<Run>, contents: seq<seq<Rec>>, at: nat, to: nat)
    requires at <= to <= |runs| && |runs| == |contents|
    ensures Bag(contents[..to]) == Bag(contents[..at]) + Bag(contents[at..to])
    ensures Live(runs[..to]) == Live(runs[..at]) + Live(runs[at..to])
    ensures Weight(runs[..to]) == Weight(runs[..at]) + Weight(runs[at..to])
  {
    BagSplit(contents[..to], at);
    LiveSplit(runs[..to], at);
    assert runs[..to][..at] == runs[..at] && runs[..to][at..] == runs[at..to];
    assert contents[..to][..at] == contents[..at] && contents[..to][at..] == contents[at..to];
  }

  // ---------------------------------------------------------------- the spool file

  datatype Disk = Disk(file: seq<Byte>, runs: seq<Run>, writePos: nat, written: nat)

  ghost predicate DiskOk(e: Encoding, d: Disk, contents: seq<seq<Rec>>, l: Ledger) {
    match l
    case Ledger(_, _, _, history) =>
      FileOk(e, d, contents, l) && Grouped(LevelsOf(d.runs), contents, history) && NoneEmpty(history.spills)
  }

  ghost predicate NoneEmpty(spills: seq<seq<Rec>>) {
    forall i :: 0 <= i < |spills| ==> spills[i] != []
  }

  ghost predicate FileOk(e: Encoding, d: Disk, contents: seq<seq<Rec>>, l: Ledger) {
    && Held(e, d.file, d.writePos, d.runs, contents)
    && Balanced(l, Live(d.runs), Weight(d.runs), d.writePos, d.written)
  }

  /** Run `i` holds the spills from `starts[i]` on, as many as its level stands for. */
  ghost predicate HoldsSpills(levels: seq<nat>, contents: seq<seq<Rec>>, h: History, i: nat)
    requires i < |levels| == |contents| && |h.starts| == |levels| + 1
  {
    && h.starts[i] + Power(levels[i]) == h.starts[i + 1] <= |h.spills|
    && multiset(contents[i]) == Bag(h.spills[h.starts[i]..h.starts[i + 1]])
  }

  /** The spills, oldest first, are shared out among the runs. */
  ghost predicate Grouped(levels: seq<nat>, contents: seq<seq<Rec>>, h: History) {
    && |levels| == |contents| && |h.starts| == |levels| + 1 && h.starts[0] == 0 && h.starts[|levels|] == |h.spills|
    && forall i {:trigger HoldsSpills(levels, contents, h, i)} :: 0 <= i < |levels| ==>
         HoldsSpills(levels, contents, h, i)
  }

  /** The history after one more spill. */
  ghost function OneMoreSpill(h: History, rs: seq<Rec>): History {
    History(h.spills + [rs], h.starts + [|h.spills| + 1])
  }

  lemma BagOne(qs: seq<seq<Rec>>, i: nat)
    requires i < |qs|
    ensures Bag(qs[i..i + 1]) == multiset(qs[i])
  {
    assert qs[i..i + 1] == [] + [qs[i]];
    BagMore([], qs[i]);
  }

  lemma GroupedMore(levels: seq<nat>, contents: seq<seq<Rec>>, h: History, rs: seq<Rec>)
    requires Grouped(levels, contents, h)
    ensures Grouped(levels + [0], contents + [rs], OneMoreSpill(h, rs))
  {
    var n, h' := |levels|, OneMoreSpill(h, rs);
    forall i | 0 <= i < n + 1
      ensures HoldsSpills(levels + [0], contents + [rs], h', i)
    {
      if i < n {
        assert HoldsSpills(levels, contents, h, i);
        assert h'.spills[h.starts[i]..h.starts[i + 1]] == h.spills[h.starts[i]..h.starts[i + 1]];
      } else {
        BagOne(h'.spills, |h.spills|);
      }
    }
  }

  /** How many spills the last runs hold, all of one level. */
  lemma {:induction false} TailStarts(levels: seq<nat>, contents: seq<seq<Rec>>, h: History, i: nat, level: nat, p: nat)
    requires Grouped(levels, contents, h) && i <= |levels| && AllAre(levels, i, level) && p == Power(level)
    ensures h.starts[i] + (|levels| - i) * p == |h.spills|
    decreases |levels| - i
  {
    if i < |levels| {
      assert HoldsSpills(levels, contents, h, i);
      TailStarts(levels, contents, h, i + 1, level, p);
    }
  }

  /** And which. */
  lemma {:induction false} TailBags(levels: seq<nat>, contents: seq<seq<Rec>>, h: History, i: nat)
    requires Grouped(levels, contents, h) && i <= |levels|
    ensures h.starts[i] <= |h.spills| && Bag(contents[i..]) == Bag(h.spills[h.starts[i]..])
    decreases |levels| - i
  {
    if i == |levels| {
      assert contents[i..] == [] && h.spills[h.starts[i]..] == [];
    } else {
      TailBags(levels, contents, h, i + 1);
      TailBag(levels, contents, h, i);
    }
  }

  lemma TailBag(levels: seq<nat>, contents: seq<seq<Rec>>, h: History, i: nat)
    requires Grouped(levels, contents, h) && i < |levels|
    requires h.starts[i + 1] <= |h.spills| && Bag(contents[i + 1..]) == Bag(h.spills[h.starts[i + 1]..])
    ensures h.starts[i] <= |h.spills| && Bag(contents[i..]) == Bag(h.spills[h.starts[i]..])
  {
    assert HoldsSpills(levels, contents, h, i);
    var from, to := h.starts[i], h.starts[i + 1];
    BagStep(contents, i, i + 1);
    BagOne(contents, i);
    BagStep(h.spills, from, to);
  }

  lemma BagStep(qs: seq<seq<Rec>>, i: nat, j: nat)
    requires i <= j <= |qs|
    ensures Bag(qs[i..]) == Bag(qs[i..j]) + Bag(qs[j..])
  {
    BagSplit(qs[i..], j - i);
    assert qs[i..][..j - i] == qs[i..j] && qs[i..][j - i..] == qs[j..];
  }

  /** The history once the runs from `at` on are one. */
  ghost function MergedFrom(h: History, at: nat): History
    requires at < |h.starts|
  {
    History(h.spills, h.starts[..at + 1] + [|h.spills|])
  }

  /** A full level makes one run of the next, which holds all the spills of the sixteen. */
  lemma GroupedMerge(levels: seq<nat>, contents: seq<seq<Rec>>, h: History, at: nat, level: nat, out: seq<Rec>)
    requires Grouped(levels, contents, h) && at + FAN_IN == |levels| && AllAre(levels, at, level)
    requires multiset(out) == Bag(contents[at..])
    ensures Grouped(levels[..at] + [level + 1], contents[..at] + [out], MergedFrom(h, at))
  {
    var levels', contents', h' := levels[..at] + [level + 1], contents[..at] + [out], MergedFrom(h, at);
    TailStarts(levels, contents, h, at, level, Power(level));
    TailBags(levels, contents, h, at);
    forall i | 0 <= i < at + 1
      ensures HoldsSpills(levels', contents', h', i)
    {
      if i < at {
        assert HoldsSpills(levels, contents, h, i);
      } else {
        assert h.spills[h.starts[at]..] == h.spills[h.starts[at]..|h.spills|];
      }
    }
  }

  lemma GroupedSame(levels: seq<nat>, contents: seq<seq<Rec>>, h: History, contents': seq<seq<Rec>>)
    requires Grouped(levels, contents, h) && SameBags(contents, |contents|, contents')
    ensures Grouped(levels, contents', h)
  {
    forall i | 0 <= i < |levels|
      ensures HoldsSpills(levels, contents', h, i)
    {
      assert HoldsSpills(levels, contents, h, i) && SameBag(contents, contents', i);
    }
  }

  /** No spill is lost: all of them are in the runs. */
  lemma {:induction false} RunsHoldSpills(levels: seq<nat>, contents: seq<seq<Rec>>, h: History, n: nat)
    requires Grouped(levels, contents, h) && n <= |levels|
    ensures Spills(levels[..n]) == h.starts[n]
  {
    if n > 0 {
      assert HoldsSpills(levels, contents, h, n - 1);
      RunsHoldSpills(levels, contents, h, n - 1);
      assert levels[..n][..n - 1] == levels[..n - 1];
    }
  }

  lemma AllHeld(levels: seq<nat>, contents: seq<seq<Rec>>, h: History)
    requires Grouped(levels, contents, h)
    ensures Spills(levels) == |h.spills|
  {
    RunsHoldSpills(levels, contents, h, |levels|);
    assert levels[..|levels|] == levels;
  }

  lemma RunsFall(runs: seq<Run>, spills: nat)
    requires LevelsOf(runs) == Levels(spills, 0)
    ensures forall i, j :: 0 <= i < j < |runs| ==> runs[i].level >= runs[j].level
  {
    LevelsFall(spills, 0);
    forall i, j | 0 <= i < j < |runs|
      ensures runs[i].level >= runs[j].level
    {
      assert LevelsOf(runs)[i] >= LevelsOf(runs)[j];
    }
  }

  ghost function Spills(levels: seq<nat>): nat {
    if levels == [] then 0 else Spills(levels[..|levels| - 1]) + Power(levels[|levels| - 1])
  }

  /** Writes bytes behind everything else, as one more run behind the first `keep`. */
  function WithRun(d: Disk, keep: nat, b: seq<Byte>, level: nat): Disk
    requires keep <= |d.runs| && d.writePos <= |d.file|
  {
    var end := d.writePos + |b|;
    Disk(Overwrite(d.file, d.writePos, b), d.runs[..keep] + [Run(d.writePos, end, level)], end, d.written + |b|)
  }

  lemma WithRunLevels(d: Disk, keep: nat, b: seq<Byte>, level: nat)
    requires keep <= |d.runs| && d.writePos <= |d.file|
    ensures LevelsOf(WithRun(d, keep, b, level).runs) == LevelsOf(d.runs)[..keep] + [level]
  {
  }

  /** Writes sorted records out as a run. */
  lemma WriteRunOk(e: Encoding, d: Disk, contents: seq<seq<Rec>>, l: Ledger, rs: seq<Rec>, b: seq<Byte>)
    requires FileOk(e, d, contents, l) && Sorted(e, rs) && Spoolable(e, rs) && b == Written(RecordBytes, rs)
    ensures FileOk(e, WithRun(d, |d.runs|, b, 0), contents + [rs],
                   l.(spilled := l.spilled + |b|, history := OneMoreSpill(l.history, rs)))
    ensures Bag(contents + [rs]) == Bag(contents) + multiset(rs)
  {
    MergedHeld(e, d, contents, |d.runs|, 0, rs, b);
    assert d.runs[..|d.runs|] == d.runs && contents[..|contents|] == contents;
    LiveMore(d.runs, Run(d.writePos, d.writePos + |b|, 0));
    BagMore(contents, rs);
  }

  lemma SpilledGrouped(d: Disk, contents: seq<seq<Rec>>, h: History, rs: seq<Rec>, b: seq<Byte>)
    requires Grouped(LevelsOf(d.runs), contents, h) && d.writePos <= |d.file|
    ensures Grouped(LevelsOf(WithRun(d, |d.runs|, b, 0).runs), contents + [rs], OneMoreSpill(h, rs))
  {
    GroupedMore(LevelsOf(d.runs), contents, h, rs);
    WithRunLevels(d, |d.runs|, b, 0);
    AllLevels(d.runs);
  }

  lemma MergedBalanced(d: Disk, l: Ledger, at: nat, level: nat, b: seq<Byte>, h: History)
    requires Balanced(l, Live(d.runs), Weight(d.runs), d.writePos, d.written) && at <= |d.runs|
             && d.writePos <= |d.file|
    requires forall i :: at <= i < |d.runs| ==> d.runs[i].level == level
    requires |b| == Live(d.runs[at..])
    ensures var d', l' := WithRun(d, at, b, level + 1), l.(merged := l.merged + |b|, history := h);
            Balanced(l', Live(d'.runs), Weight(d'.runs), d'.writePos, d'.written)
  {
    MergedWeight(d.runs, at, level, Run(d.writePos, d.writePos + |b|, level + 1));
  }

  lemma MergedGrouped(d: Disk, contents: seq<seq<Rec>>, h: History, at: nat, level: nat, out: seq<Rec>, b: seq<Byte>)
    requires Grouped(LevelsOf(d.runs), contents, h) && at + FAN_IN == |d.runs| && d.writePos <= |d.file|
    requires forall i :: at <= i < |d.runs| ==> d.runs[i].level == level
    requires multiset(out) == Bag(contents[at..])
    ensures Grouped(LevelsOf(WithRun(d, at, b, level + 1).runs), contents[..at] + [out], MergedFrom(h, at))
  {
    GroupedMerge(LevelsOf(d.runs), contents, h, at, level, out);
    WithRunLevels(d, at, b, level + 1);
  }

  lemma MergedHeld(e: Encoding, d: Disk, contents: seq<seq<Rec>>, at: nat, level: nat, out: seq<Rec>, b: seq<Byte>)
    requires Held(e, d.file, d.writePos, d.runs, contents) && at <= |d.runs|
    requires Sorted(e, out) && Spoolable(e, out) && b == Written(RecordBytes, out)
    ensures var d' := WithRun(d, at, b, level); Held(e, d'.file, d'.writePos, d'.runs, contents[..at] + [out])
  {
    HeldPart(e, d.file, d.writePos, d.runs, contents, 0, at);
    assert d.runs[0..at] == d.runs[..at] && contents[0..at] == contents[..at];
    HeldAppend(e, d.file, d.writePos, d.runs[..at], contents[..at], b, level, out);
  }

  lemma MergedBag(contents: seq<seq<Rec>>, at: nat, out: seq<Rec>)
    requires at <= |contents| && multiset(out) == Bag(contents[at..])
    ensures Bag(contents[..at] + [out]) == Bag(contents)
  {
    BagSplit(contents, at);
    BagMore(contents[..at], out);
  }

  /** One more run of `size` bytes was put behind everything else. */
  ghost predicate Appended(d: Disk, d': Disk, size: nat) {
    d'.runs != [] && RunLen(d'.runs[|d'.runs| - 1]) == size && d'.writePos == d.writePos + size
  }

  /** Merges the newest runs of a level into one of the next, written behind everything else. */
  method MergeTail(e: Encoding, d: Disk, level: nat, ghost contents: seq<seq<Rec>>, ghost l: Ledger)
    returns (d': Disk, ghost contents': seq<seq<Rec>>, ghost l': Ledger)
    requires DiskOk(e, d, contents, l) && |d.runs| >= FAN_IN
    requires forall i :: |d.runs| - FAN_IN <= i < |d.runs| ==> d.runs[i].level == level
    ensures DiskOk(e, d', contents', l') && Bag(contents') == Bag(contents) && l'.spilled == l.spilled
            && l'.history.spills == l.history.spills
    ensures LevelsOf(d'.runs) == LevelsOf(d.runs)[..|d.runs| - FAN_IN] + [level + 1]
    ensures Appended(d, d', Live(d.runs[|d.runs| - FAN_IN..]))
  {
    var at := |d.runs| - FAN_IN;
    HeldPart(e, d.file, d.writePos, d.runs, contents, at, |d.runs|);
    assert d.runs[at..|d.runs|] == d.runs[at..] && contents[at..|d.runs|] == contents[at..];
    var b, out := MergeOnto(e, d.file, d.writePos, d.runs[at..], contents[at..]);
    MergedHeld(e, d, contents, at, level + 1, out, b);
    MergedBalanced(d, l, at, level, b, MergedFrom(l.history, at));
    MergedBag(contents, at, out);
    MergedGrouped(d, contents, l.history, at, level, out, b);
    WithRunLevels(d, at, b, level + 1);
    d', contents' := WithRun(d, at, b, level + 1), contents[..at] + [out];
    l' := l.(merged := l.merged + |b|, history := MergedFrom(l.history, at));
  }

  /** Copies the live runs to a fresh file, leaving the dead bytes behind. */
  method Rewrite(e: Encoding, d: Disk, ghost contents: seq<seq<Rec>>, ghost l: Ledger)
    returns (d': Disk, ghost contents': seq<seq<Rec>>, ghost l': Ledger)
    requires DiskOk(e, d, contents, l) && Overfull(d)
    ensures DiskOk(e, d', contents', l') && Bag(contents') == Bag(contents) && l'.spilled == l.spilled
            && l'.history.spills == l.history.spills
    ensures LevelsOf(d'.runs) == LevelsOf(d.runs) && d'.writePos == Live(d'.runs)
  {
    var output, next;
    output, next, contents' := MergeGroups(e, d.file, d.writePos, d.runs, contents, 1);
    d' := Disk(output, next, |output|, d.written + |output|);
    l' := l.(copied := l.copied + |output|);
    GroupedSame(LevelsOf(d.runs), contents, l.history, contents');
  }

  /** Every run from `from` on has the same level. */
  method OneLevel(runs: seq<Run>, from: nat, level: nat) returns (r: bool)
    requires from <= |runs|
    ensures r <==> AllAre(LevelsOf(runs), from, level)
  {
    var i := from;
    while i < |runs|
      invariant from <= i <= |runs| && forall k :: from <= k < i ==> runs[k].level == level
    {
      if runs[i].level != level {
        assert LevelsOf(runs)[i] != level;
        return false;
      }
      i := i + 1;
    }
    return true;
  }

  /** The levels while a new run is carried up: `n` runs' worth of spills from `level` up, and the new run. */
  ghost predicate Carrying(levels: seq<nat>, n: nat, level: nat, goal: seq<nat>) {
    levels == Levels(n, level) + [level] && Levels(n + 1, level) == goal
  }

  lemma Carried(levels: seq<nat>, tail: nat, top: nat, n: nat, level: nat, goal: seq<nat>)
    requires Carrying(levels, n, level, goal) && tail + FAN_IN == |levels| && AllAre(levels, tail, top)
    ensures top == level && Carrying(levels[..tail] + [top + 1], n / FAN_IN, level + 1, goal)
  {
    assert levels[|levels| - 1] == level;
    assert levels[tail] == top;
    assert n % FAN_IN == FAN_IN - 1 by {
      if n % FAN_IN < FAN_IN - 1 {
        RoomForOne(n, level);
        assert false;
      }
    }
    FullLevel(n, level);
  }

  lemma CarriedOut(levels: seq<nat>, top: nat, n: nat, level: nat, goal: seq<nat>)
    requires Carrying(levels, n, level, goal)
    requires |levels| < FAN_IN || (levels[|levels| - FAN_IN] == top && !AllAre(levels, |levels| - FAN_IN, top))
    ensures levels == goal
  {
    if n % FAN_IN == FAN_IN - 1 {
      FullLevel(n, level);
      assert false;
    }
    RoomForOne(n, level);
  }

  /** No run is empty, since no spill was. */
  lemma SomeInLast(e: Encoding, d: Disk, contents: seq<seq<Rec>>, l: Ledger)
    requires DiskOk(e, d, contents, l) && d.runs != []
    ensures RunLen(d.runs[|d.runs| - 1]) > 0
  {
    var n, h := |d.runs| - 1, l.history;
    assert HoldsSpills(LevelsOf(d.runs), contents, h, n);
    var spills := h.spills[h.starts[n]..h.starts[n + 1]];
    assert spills[0] == h.spills[h.starts[n]] && spills[0][0] in multiset(spills[0]);
    assert spills[0][0] in Bag(spills);
    assert RunOk(e, d.file, d.writePos, d.runs[n], contents[n]);
    assert contents[n] != [];
    SomeBytes(contents[n], contents[n], Written(RecordBytes, contents[n]));
  }

  /** The newest run, if a merge made it, lies behind the bytes it was made of, and, if two did, behind
      those that the first one merged as well. */
  ghost predicate Trails(d: Disk, live: nat) {
    && d.runs != []
    && var run := d.runs[|d.runs| - 1];
       && (run.level >= 1 ==> d.writePos >= live + RunLen(run))
       && (run.level >= 2 ==> d.writePos > live + RunLen(run))
  }

  lemma StillTrails(e: Encoding, d: Disk, contents: seq<seq<Rec>>, l: Ledger, d': Disk, level: nat)
    requires DiskOk(e, d, contents, l) && Trails(d, l.spilled) && d.runs[|d.runs| - 1].level == level
    requires |d.runs| >= FAN_IN && Appended(d, d', Live(d.runs[|d.runs| - FAN_IN..]))
    requires d'.runs[|d'.runs| - 1].level == level + 1
    ensures Trails(d', l.spilled)
  {
    SomeInLast(e, d, contents, l);
  }

  /** Merges full levels, the newest first, until the level a run is added to has room for it. */
  method MergeFull(e: Encoding, d: Disk, passes: Passes, ghost contents: seq<seq<Rec>>, ghost l: Ledger,
                   ghost spills: nat, ghost goal: seq<nat>)
    returns (r: Result<()>, d': Disk, passes': Passes, ghost contents': seq<seq<Rec>>, ghost l': Ledger)
    requires DiskOk(e, d, contents, l) && Carrying(LevelsOf(d.runs), spills, 0, goal) && Trails(d, l.spilled)
    ensures (r.Err? ==> passes' == Left(0)) && (passes'.Unlimited? <==> passes.Unlimited?)
    ensures r.Ok? ==> Kept(e, contents, l, d', contents', l') && LevelsOf(d'.runs) == goal && Trails(d', l.spilled)
  {
    d', passes', contents', l' := d, passes, contents, l;
    ghost var n: nat, level: nat := spills, 0;
    while |d'.runs| >= FAN_IN
      invariant Kept(e, contents, l, d', contents', l')
      invariant Carrying(LevelsOf(d'.runs), n, level, goal)
      invariant Trails(d', l.spilled) && (passes'.Unlimited? <==> passes.Unlimited?)
      decreases |d'.runs|
    {
      var tail := |d'.runs| - FAN_IN;
      var same := OneLevel(d'.runs, tail, d'.runs[tail].level);
      if !same {
        CarriedOut(LevelsOf(d'.runs), d'.runs[tail].level, n, level, goal);
        return Ok(()), d', passes', contents', l';
      }
      if passes' == Left(0) {
        return Err(Io), d', passes', contents', l';
      }
      passes' := Spend(passes');
      d', contents', l' := CarryUp(e, d', d'.runs[tail].level, contents', l', n, level, goal);
      n, level := n / FAN_IN, level + 1;
    }
    CarriedOut(LevelsOf(d'.runs), 0, n, level, goal);
    r := Ok(());
  }

  method CarryUp(e: Encoding, d: Disk, top: nat, ghost contents: seq<seq<Rec>>, ghost l: Ledger, ghost n: nat,
                 ghost level: nat, ghost goal: seq<nat>)
    returns (d': Disk, ghost contents': seq<seq<Rec>>, ghost l': Ledger)
    requires DiskOk(e, d, contents, l) && |d.runs| >= FAN_IN && Carrying(LevelsOf(d.runs), n, level, goal)
    requires AllAre(LevelsOf(d.runs), |d.runs| - FAN_IN, top) && Trails(d, l.spilled)
    ensures Kept(e, contents, l, d', contents', l') && |LevelsOf(d'.runs)| < |LevelsOf(d.runs)|
    ensures Carrying(LevelsOf(d'.runs), n / FAN_IN, level + 1, goal) && Trails(d', l.spilled)
  {
    var tail := |d.runs| - FAN_IN;
    Carried(LevelsOf(d.runs), tail, top, n, level, goal);
    SameLevels(d.runs, tail, top);
    d', contents', l' := MergeTail(e, d, top, contents, l);
    assert LevelsOf(d'.runs)[|d'.runs| - 1] == top + 1;
    StillTrails(e, d, contents, l, d', top);
  }

  ghost predicate Kept(e: Encoding, contents: seq<seq<Rec>>, l: Ledger, d': Disk, contents': seq<seq<Rec>>,
                       l': Ledger) {
    DiskOk(e, d', contents', l') && Bag(contents') == Bag(contents) && l'.spilled == l.spilled
      && l'.history.spills == l.history.spills
  }

  /** More of the file is dead than live. */
  predicate Overfull(d: Disk) {
    d.writePos > Live(d.runs) * COMPACT_AT
  }

  /** The single run that merging leaves behind has more dead bytes before it than it has itself, if and
      only if two merges or more made it. */
  lemma SingleRunOverfull(e: Encoding, d: Disk, contents: seq<seq<Rec>>, l: Ledger, spills: nat)
    requires DiskOk(e, d, contents, l) && |d.runs| == 1 && LevelsOf(d.runs) == Levels(spills, 0) && Trails(d, l.spilled)
    ensures Overfull(d) <==> IsBigPower(spills)
  {
    var run := d.runs[0];
    assert LevelsOf(d.runs)[0] == run.level;
    OneRunIsPower(spills, 0);
    WhichPower(run.level);
    OneRunLive(d.runs, run);
  }

  lemma OneRunLive(runs: seq<Run>, run: Run)
    requires runs == [run]
    ensures Live(runs) == RunLen(run)
    ensures run.level == 0 ==> Weight(runs) == 0
    ensures run.level == 1 ==> Weight(runs) == RunLen(run)
  {
    assert runs == [] + [run];
    LiveMore([], run);
    if run.level == 1 {
      assert Times(RunLen(run), 1) == Times(RunLen(run), 0) + RunLen(run);
    }
  }

  lemma WhichPower(k: nat)
    ensures IsBigPower(Power(k)) <==> k >= 2
  {
    if k < 2 {
      assert Power(k) <= FAN_IN by {
        assert Power(1) == FAN_IN * Power(0);
      }
      forall m: nat | m >= 2
        ensures !IsPower(Power(k), m)
      {
        PowerIsLarge(m);
      }
    } else {
      assert IsPower(Power(k), k);
    }
  }

  lemma {:induction false} PowerIsLarge(k: nat)
    requires k >= 2
    ensures Power(k) >= FAN_IN * FAN_IN
  {
    if k > 2 {
      PowerIsLarge(k - 1);
    } else {
      assert Power(1) == FAN_IN * Power(0);
    }
  }

  lemma ManyRunsNoPower(spills: nat)
    requires |Levels(spills, 0)| > 1
    ensures !IsBigPower(spills)
  {
    forall k: nat | k >= 2
      ensures !IsPower(spills, k)
    {
      PowerIsOneRun(k, 0);
    }
  }

  lemma WhenOverfull(e: Encoding, d: Disk, contents: seq<seq<Rec>>, l: Ledger, spills: nat)
    requires DiskOk(e, d, contents, l) && LevelsOf(d.runs) == Levels(spills, 0) && Trails(d, l.spilled)
    ensures |d.runs| <= 1 ==> (Overfull(d) <==> IsBigPower(spills))
    ensures |d.runs| > 1 ==> !IsBigPower(spills)
  {
    if |d.runs| == 1 {
      SingleRunOverfull(e, d, contents, l, spills);
    } else {
      ManyRunsNoPower(spills);
    }
  }

  /** Merges runs as they pile up, and drops the dead bytes once there are too many. */
  method MergeTiers(e: Encoding, d: Disk, passes: Passes, ghost contents: seq<seq<Rec>>, ghost l: Ledger,
                    ghost spills: nat)
    returns (r: Result<()>, d': Disk, passes': Passes, ghost contents': seq<seq<Rec>>, ghost l': Ledger)
    requires DiskOk(e, d, contents, l) && LevelsOf(d.runs) == Levels(spills, 0) + [0] && Trails(d, l.spilled)
    ensures (r.Err? ==> passes' == Left(0)) && (passes'.Unlimited? <==> passes.Unlimited?)
    ensures r.Ok? ==> Kept(e, contents, l, d', contents', l') && LevelsOf(d'.runs) == Levels(spills + 1, 0)
    ensures r.Ok? ==> (Overfull(d') <==> IsBigPower(spills + 1)) && (Overfull(d') <==> d'.writePos > 2 * Live(d'.runs))
  {
    r, d', passes', contents', l' := MergeFull(e, d, passes, contents, l, spills, Levels(spills + 1, 0));
    if r.Err? {
      return;
    }
    WhenOverfull(e, d', contents', l', spills + 1);
    if Overfull(d') && |d'.runs| > 1 {
      if passes' == Left(0) {
        return Err(Io), d', passes', contents', l';
      }
      passes' := Spend(passes');
      d', contents', l' := Rewrite(e, d', contents', l');
    }
  }

  lemma SameLevels(runs: seq<Run>, from: nat, level: nat)
    requires AllAre(LevelsOf(runs), from, level)
    ensures forall i :: from <= i < |runs| ==> runs[i].level == level
  {
    forall i | from <= i < |runs|
      ensures runs[i].level == level
    {
      assert LevelsOf(runs)[i] == level;
    }
  }

  /** The runs and the buffer together hold every record appended, once. */
  ghost predicate Keeps(e: Encoding, pushed: seq<Rec>, inRuns: multiset<Rec>, buffer: seq<Rec>) {
    && inRuns + multiset(buffer) == multiset(pushed)
    && Spoolable(e, pushed) && Spoolable(e, buffer)
    && forall i :: 0 <= i < |pushed| ==> pushed[i].order == i
  }

  lemma OneMoreKept(e: Encoding, pushed: seq<Rec>, inRuns: multiset<Rec>, buffer: seq<Rec>, r: Rec)
    requires Keeps(e, pushed, inRuns, buffer) && e.readable(r.key) && Fits(r) && r.order == |pushed|
    ensures Keeps(e, pushed + [r], inRuns, buffer + [r])
  {
  }

  lemma AllSpilled(e: Encoding, pushed: seq<Rec>, inRuns: multiset<Rec>, buffer: seq<Rec>, inRuns': multiset<Rec>)
    requires Keeps(e, pushed, inRuns, buffer) && inRuns' == inRuns + multiset(buffer)
    ensures Keeps(e, pushed, inRuns', [])
  {
  }

  /** A spool that can go on: what it has on disk, what it counts, and what it holds. */
  ghost predicate Usable(e: Encoding, d: Disk, contents: seq<seq<Rec>>, l: Ledger, spills: nat, pushed: seq<Rec>,
                         buffer: seq<Rec>) {
    && DiskOk(e, d, contents, l) && LevelsOf(d.runs) == Levels(spills, 0) && |l.history.spills| == spills
    && (Overfull(d) <==> IsBigPower(spills))
    && Keeps(e, pushed, Bag(contents), buffer)
  }

  /** The runs are a counter of the spills in base sixteen, the highest digit first: a run of a level holds
      sixteen times the spills of a run of the level below, and together they hold them all. */
  lemma RunsCountSpills(runs: seq<Run>, contents: seq<seq<Rec>>, h: History, spills: nat, k: nat)
    requires LevelsOf(runs) == Levels(spills, 0) && Grouped(LevelsOf(runs), contents, h)
    ensures Count(LevelsOf(runs), k) == Digit(spills, k) && Spills(LevelsOf(runs)) == |h.spills|
    ensures forall i, j :: 0 <= i < j < |runs| ==> runs[i].level >= runs[j].level
    ensures forall i :: 0 <= i < |runs| ==> HoldsSpills(LevelsOf(runs), contents, h, i)
  {
    RunsAreDigits(spills, 0, k);
    RunsFall(runs, spills);
    AllHeld(LevelsOf(runs), contents, h);
  }

  /** Sorts the buffer, writes it out as a run, and merges what has piled up. */
  method SpillBuffer(e: Encoding, d: Disk, passes: Passes, buffer: seq<Rec>,
                     ghost contents: seq<seq<Rec>>, ghost l: Ledger, ghost spills: nat, ghost pushed: seq<Rec>)
    returns (r: Result<()>, d': Disk, passes': Passes, ghost contents': seq<seq<Rec>>, ghost l': Ledger,
             ghost spills': nat)
    requires Usable(e, d, contents, l, spills, pushed, buffer)
    ensures (r.Err? ==> passes' == Left(0)) && (passes'.Unlimited? <==> passes.Unlimited?)
    ensures r.Ok? ==> Usable(e, d', contents', l', spills', pushed, [])
    ensures r.Ok? && buffer == [] ==> d' == d && spills' == spills
    ensures r.Ok? && buffer != [] ==> spills' == spills + 1
    ensures r.Ok? && buffer != [] ==> l'.history.spills == l.history.spills + [InOrder(e, buffer)]
  {
    if buffer == [] {
      return Ok(()), d, passes, contents, l, spills;
    }
    spills' := spills + 1;
    if passes == Left(0) {
      return Err(Io), d, passes, contents, l, spills';
    }
    var spilled;
    ghost var held, more;
    spilled, held, more := WriteRun(e, d, buffer, contents, l, spills);
    r, d', passes', contents', l' := MergeTiers(e, spilled, Spend(passes), held, more, spills);
    if r.Ok? {
      AllSpilled(e, pushed, Bag(contents), buffer, Bag(contents'));
    }
  }

  /** Writes the sorted buffer behind everything else, as one more run. */
  method WriteRun(e: Encoding, d: Disk, buffer: seq<Rec>, ghost contents: seq<seq<Rec>>, ghost l: Ledger,
                  ghost spills: nat)
    returns (d': Disk, ghost contents': seq<seq<Rec>>, ghost l': Ledger)
    requires DiskOk(e, d, contents, l) && LevelsOf(d.runs) == Levels(spills, 0) && buffer != [] && Spoolable(e, buffer)
    ensures DiskOk(e, d', contents', l') && LevelsOf(d'.runs) == Levels(spills, 0) + [0] && Trails(d', l'.spilled)
    ensures Bag(contents') == Bag(contents) + multiset(buffer)
    ensures l'.history.spills == l.history.spills + [InOrder(e, buffer)]
  {
    var rs := InOrder(e, buffer);
    InOrderSorts(e, buffer);
    var b := Written(RecordBytes, rs);
    WriteRunOk(e, d, contents, l, rs, b);
    SpilledGrouped(d, contents, l.history, rs, b);
    SpillsSome(l.history, buffer, rs);
    d' := WithRun(d, |d.runs|, b, 0);
    WithRunLevels(d, |d.runs|, b, 0);
    AllLevels(d.runs);
    contents', l' := contents + [rs], l.(spilled := l.spilled + |b|, history := OneMoreSpill(l.history, rs));
  }

  lemma SpillsSome(h: History, buffer: seq<Rec>, rs: seq<Rec>)
    requires NoneEmpty(h.spills) && buffer != [] && multiset(rs) == multiset(buffer)
    ensures NoneEmpty(OneMoreSpill(h, rs).spills)
  {
    assert buffer[0] in multiset(rs);
  }

  lemma SomeBytes(buffer: seq<Rec>, rs: seq<Rec>, b: seq<Byte>)
    requires buffer != [] && multiset(rs) == multiset(buffer) && b == Written(RecordBytes, rs)
    ensures |b| > 0
  {
    assert buffer[0] in multiset(rs);
    assert rs != [];
  }

  lemma AllLevels(runs: seq<Run>)
    ensures LevelsOf(runs)[..|runs|] == LevelsOf(runs)
  {
  }

  /** Merges runs until few enough are left to read at once. */
  method ReduceRuns(e: Encoding, d: Disk, passes: Passes, ghost contents: seq<seq<Rec>>)
    returns (r: Result<Disk>, passes': Passes, ghost contents': seq<seq<Rec>>)
    requires Held(e, d.file, d.writePos, d.runs, contents)
    ensures (r.Err? ==> passes' == Left(0)) && (passes'.Unlimited? <==> passes.Unlimited?)
    ensures r.Ok? ==> |r.value.runs| <= FAN_IN && Bag(contents') == Bag(contents)
    ensures r.Ok? ==> Held(e, r.value.file, r.value.writePos, r.value.runs, contents')
  {
    var d' := d;
    passes', contents' := passes, contents;
    while |d'.runs| > FAN_IN
      invariant passes'.Unlimited? <==> passes.Unlimited?
      invariant Bag(contents') == Bag(contents) && Held(e, d'.file, d'.writePos, d'.runs, contents')
      decreases |d'.runs|
    {
      if passes' == Left(0) {
        return Err(Io), passes', contents';
      }
      passes' := Spend(passes');
      var output, next;
      output, next, contents' := MergeGroups(e, d'.file, d'.writePos, d'.runs, contents', FAN_IN);
      d' := Disk(output, next, |output|, d'.written + |output|);
    }
    return Ok(d'), passes', contents';
  }

  // ---------------------------------------------------------------- the spool

  /** Every record was let in. */
  ghost predicate Accepted(e: Encoding, rs: seq<Rec>) {
    forall i :: 0 <= i < |rs| ==> e.wellFormed(rs[i].key)
  }

  lemma AcceptedMore(e: Encoding, rs: seq<Rec>, r: Rec)
    requires Accepted(e, rs) && e.wellFormed(r.key)
    ensures Accepted(e, rs + [r])
  {
  }

  lemma EmptyIsUsable(e: Encoding, d: Disk, contents: seq<seq<Rec>>, l: Ledger, spills: nat, pushed: seq<Rec>)
    requires TotalOrder(e) && d == Disk([], [], 0, 0) && contents == [] && spills == 0 && pushed == []
    requires l.spilled == l.merged == l.copied == 0 && l.history.spills == [] && l.history.starts == [0]
    ensures Usable(e, d, contents, l, spills, pushed, pushed)
  {
    assert LevelsOf(d.runs) == [] && Levels(spills, 0) == [];
    NoPower(spills);
  }

  lemma NoPower(n: nat)
    requires n == 0
    ensures !IsBigPower(n)
  {
  }

  class RecordSpool {
    const e: Encoding
    var buffer: seq<Rec>
    var nextSeq: nat
    var disk: Disk
    var spoiled: Option<ErrorKind>
    var passes: Passes
    ghost var pushed: seq<Rec>
    ghost var contents: seq<seq<Rec>>
    ghost var spills: nat
    ghost var ledger: Ledger

    ghost predicate Valid()
      reads this
    {
      && TotalOrder(e) && ValidKeysAreReadable(e)
      && Accepted(e, pushed)
      && (spoiled.None? ==> Usable(e, disk, contents, ledger, spills, pushed, buffer) && nextSeq == |pushed|)
    }

    constructor (e: Encoding, passes: Passes)
      requires TotalOrder(e) && ValidKeysAreReadable(e)
      ensures Valid() && spoiled.None? && pushed == [] && spills == 0 && this.e == e && this.passes == passes
    {
      this.e, this.passes := e, passes;
      buffer, nextSeq, disk, spoiled := [], 0, Disk([], [], 0, 0), None;
      pushed, contents, spills, ledger := [], [], 0, Ledger(0, 0, 0, History([], [0]));
      new;
      EmptyIsUsable(e, disk, contents, ledger, spills, pushed);
    }

    /** However much is spilled, few runs are kept, and each byte of them was written few times. */
    lemma WrittenFewTimes(top: nat)
      requires Valid() && spoiled.None? && spills < Power(top + 1)
      ensures disk.written <= Live(disk.runs) * (1 + 2 * top)
      ensures |disk.runs| <= (FAN_IN - 1) * (top + 1)
    {
      WriteBound(ledger, disk.runs, disk.writePos, disk.written, spills, top);
    }

    /** Takes over what is on disk once the buffer is written out. */
    method Settle(d: Disk, ghost held: seq<seq<Rec>>, ghost l: Ledger, ghost n: nat)
      requires Valid() && spoiled.None? && Usable(e, d, held, l, n, pushed, [])
      modifies this`disk, this`buffer, this`contents, this`ledger, this`spills
      ensures Valid() && disk == d && buffer == [] && spills == n && ledger == l
    {
      disk, buffer := d, [];
      contents, ledger, spills := held, l, n;
      assert Usable(e, disk, contents, ledger, spills, pushed, buffer);
    }

    /** Sorts the buffer, writes it out as a run, and merges what has piled up. */
    method Spill() returns (r: Result<()>)
      requires Valid() && spoiled.None?
      modifies this
      ensures pushed == old(pushed) && spoiled == old(spoiled) && nextSeq == old(nextSeq)
      ensures (r.Err? ==> passes == Left(0)) && (passes.Unlimited? <==> old(passes).Unlimited?)
      ensures r.Ok? ==> Valid() && buffer == []
      ensures r.Ok? && old(buffer) == [] ==> disk == old(disk) && spills == old(spills)
      ensures r.Ok? && old(buffer) != [] ==> spills == old(spills) + 1
      ensures r.Ok? && old(buffer) != [] ==>
                ledger.history.spills == old(ledger.history.spills) + [InOrder(e, old(buffer))]
    {
      var spilled, d, passes', held, l, n := SpillBuffer(e, disk, passes, buffer, contents, ledger, spills, pushed);
      passes := passes';
      if spilled.Err? {
        return Err(spilled.kind);
      }
      Settle(d, held, l, n);
      return Ok(());
    }

    /** Takes a record into the buffer. */
    method Hold(record: Rec)
      requires Valid() && spoiled.None? && e.wellFormed(record.key) && Fits(record) && record.order == nextSeq
      modifies this`buffer, this`nextSeq, this`pushed
      ensures Valid() && pushed == old(pushed) + [record] && buffer != []
    {
      OneMoreKept(e, pushed, Bag(contents), buffer, record);
      AcceptedMore(e, pushed, record);
      buffer, nextSeq := buffer + [record], nextSeq + 1;
      pushed := pushed + [record];
    }

    /** Appends a record. One that cannot be written out spoils the spool for good. */
    method Push(key: Key, value: seq<Byte>, full: bool) returns (r: Result<()>)
      requires Valid() && |key| < 0x1_0000_0000 && |value| < 0x1_0000_0000 && nextSeq <= U64_MAX
      modifies this
      ensures Valid()
      ensures r.Ok? ==> spoiled.None? && pushed == old(pushed) + [Rec(old(nextSeq), key, value)]
      ensures old(spoiled).Some? ==> r == Err(old(spoiled).value) && unchanged(this)
      ensures r.Err? && old(spoiled).None? ==>
                (!e.wellFormed(key) && unchanged(this)) || (passes == Left(0) && spoiled == Some(r.kind))
      ensures passes.Unlimited? <==> old(passes).Unlimited?
      ensures r.Ok? ==> spills == old(spills) + if full then 1 else 0
    {
      if spoiled.Some? {
        return Err(spoiled.value);
      }
      if !e.wellFormed(key) {
        return Err(Invalid);
      }
      var record := Rec(nextSeq, key, value);
      Hold(record);
      if full {
        r := Spill();
        if r.Err? {
          spoiled := Some(r.kind);
        }
        return;
      }
      return Ok(());
    }

    /** Every record that was appended, by key and then by when it was. */
    method IntoSorted() returns (r: Result<seq<Rec>>)
      requires Valid()
      modifies this
      ensures r.Ok? ==> old(spoiled).None? && r.value == InOrder(e, old(pushed))
      ensures r.Err? ==> old(spoiled).Some? || passes == Left(0)
      ensures passes.Unlimited? <==> old(passes).Unlimited?
    {
      if spoiled.Some? {
        return Err(spoiled.value);
      }
      if disk.runs == [] {
        OnlyBuffered(e, pushed, contents, buffer);
        return Ok(InOrder(e, buffer));
      }
      var spilled := Spill();
      if spilled.Err? {
        return Err(spilled.kind);
      }
      var reduced, passes', held := ReduceRuns(e, disk, passes, contents);
      passes := passes';
      if reduced.Err? {
        return Err(reduced.kind);
      }
      var d := reduced.value;
      var _, out := MergeOnto(e, d.file, d.writePos, d.runs, held);
      AllOut(e, old(pushed), out);
      return Ok(out);
    }
  }

  /** Appends the same record over and over, writing each out. */
  method SpillEach(spool: RecordSpool, key: Key, value: seq<Byte>, times: nat)
    requires spool.Valid() && spool.spoiled.None? && spool.passes.Unlimited? && spool.e.wellFormed(key)
    requires |key| < 0x1_0000_0000 && |value| < 0x1_0000_0000 && spool.nextSeq + times <= U64_MAX
    modifies spool
    ensures spool.Valid() && spool.spoiled.None? && spool.spills == old(spool.spills) + times
  {
    for i := 0 to times
      invariant spool.Valid() && spool.spoiled.None? && spool.passes.Unlimited?
      invariant spool.spills == old(spool.spills) + i && spool.nextSeq == old(spool.nextSeq) + i
    {
      var pushed := spool.Push(key, value, true);
    }
  }

  /** After 256 spills a single run is left, and more than half of the file is dead. */
  method DeadSpace(e: Encoding, key: Key, value: seq<Byte>) returns (spool: RecordSpool)
    requires TotalOrder(e) && ValidKeysAreReadable(e) && e.wellFormed(key)
    requires |key| < 0x1_0000_0000 && |value| < 0x1_0000_0000
    ensures fresh(spool) && spool.Valid() && spool.spoiled.None? && spool.spills == 256
    ensures |spool.disk.runs| == 1 && spool.disk.writePos > 2 * Live(spool.disk.runs)
  {
    spool := new RecordSpool(e, Unlimited);
    SpillEach(spool, key, value, 256);
    assert Power(2) == FAN_IN * Power(1) && Power(1) == FAN_IN * Power(0);
    assert IsPower(256, 2);
    PowerIsOneRun(2, 0);
    assert |spool.disk.runs| == |LevelsOf(spool.disk.runs)|;
  }

  lemma OnlyBuffered(e: Encoding, pushed: seq<Rec>, contents: seq<seq<Rec>>, buffer: seq<Rec>)
    requires TotalOrder(e) && contents == [] && Keeps(e, pushed, Bag(contents), buffer)
    ensures InOrder(e, buffer) == InOrder(e, pushed)
  {
    InOrderSorts(e, buffer);
    AllOut(e, pushed, InOrder(e, buffer));
  }

  lemma AllOut(e: Encoding, pushed: seq<Rec>, out: seq<Rec>)
    requires TotalOrder(e) && Spoolable(e, pushed) && (forall i :: 0 <= i < |pushed| ==> pushed[i].order == i)
    requires Sorted(e, out) && Spoolable(e, out) && multiset(out) == multiset(pushed)
    ensures out == InOrder(e, pushed)
  {
    InOrderSorts(e, pushed);
    forall i, j | 0 <= i < j < |out|
      ensures out[i].order != out[j].order
    {
      SameOrders(pushed, out, i, j);
    }
    OneWaySorted(e, out, InOrder(e, pushed));
  }
}
