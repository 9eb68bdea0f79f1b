/**
The out-of-memory killer: when the children together use more than the high-water mark, they are
killed from the largest down until the total is low again.  Memory fractions are real numbers.
 */
module OomKiller {
  import opened Sequences

  /** A share of the memory: never negative, so truncation is rounding down. */
  type Fraction = r: real | r >= 0.0

  datatype Proc = Proc(pid: int, mem: Fraction)

  /** The sort key: the memory fraction truncated to thousandths. */
  function Key(p: Proc): int {
    (p.mem * 1000.0).Floor
  }

  function Total(ps: seq<Proc>): real {
    if ps == [] then 0.0 else Total(ps[..|ps| - 1]) + ps[|ps| - 1].mem
  }

  // ------------------------------------------------------------------
  // The order of the victims
  // ------------------------------------------------------------------

  /** Puts `p` after the last process whose key is not larger: the insertion of a stable sort. */
  function Insert(sorted: seq<Proc>, p: Proc): seq<Proc> {
    if sorted == [] || Key(sorted[|sorted| - 1]) <= Key(p) then sorted + [p]
    else Insert(sorted[..|sorted| - 1], p) + [sorted[|sorted| - 1]]
  }

  function SortByKey(ps: seq<Proc>): seq<Proc> {
    if ps == [] then [] else Insert(SortByKey(ps[..|ps| - 1]), ps[|ps| - 1])
  }

  ghost predicate Ascending(ps: seq<Proc>) {
    forall i, j | 0 <= i < j < |ps| :: Key(ps[i]) <= Key(ps[j])
  }

  ghost predicate Descending(ps: seq<Proc>) {
    forall i, j | 0 <= i < j < |ps| :: Key(ps[i]) >= Key(ps[j])
  }

  lemma {:induction false} InsertMultiset(sorted: seq<Proc>, p: Proc)
    ensures multiset(Insert(sorted, p)) == multiset(sorted) + multiset{p}
  {
    if sorted != [] && Key(sorted[|sorted| - 1]) > Key(p) {
      assert sorted == sorted[..|sorted| - 1] + [sorted[|sorted| - 1]];
      InsertMultiset(sorted[..|sorted| - 1], p);
    }
  }

  lemma {:induction false} InsertIsSorted(sorted: seq<Proc>, p: Proc)
    requires Ascending(sorted)
    ensures Ascending(Insert(sorted, p))
  {
    if sorted != [] && Key(sorted[|sorted| - 1]) > Key(p) {
      var init, last := sorted[..|sorted| - 1], sorted[|sorted| - 1];
      InsertIsSorted(init, p);
      InsertMultiset(init, p);
      var r := Insert(init, p);
      forall i | 0 <= i < |r|
        ensures Key(r[i]) <= Key(last)
      {
        assert r[i] in multiset(r);
        assert r[i] in init || r[i] == p;
      }
    }
  }

  /** The sort orders the processes and neither loses nor adds any. */
  lemma {:induction false} SortIsSorted(ps: seq<Proc>)
    ensures Ascending(SortByKey(ps)) && multiset(SortByKey(ps)) == multiset(ps)
  {
    if ps != [] {
      assert ps == ps[..|ps| - 1] + [ps[|ps| - 1]];
      SortIsSorted(ps[..|ps| - 1]);
      InsertIsSorted(SortByKey(ps[..|ps| - 1]), ps[|ps| - 1]);
      InsertMultiset(SortByKey(ps[..|ps| - 1]), ps[|ps| - 1]);
    }
  }

  function Reversed(ps: seq<Proc>): seq<Proc> {
    if ps == [] then [] else [ps[|ps| - 1]] + Reversed(ps[..|ps| - 1])
  }

  lemma {:induction false} ReversedIsDescending(ps: seq<Proc>)
    requires Ascending(ps)
    ensures Descending(Reversed(ps)) && multiset(Reversed(ps)) == multiset(ps)
  {
    if ps != [] {
      var init, last := ps[..|ps| - 1], ps[|ps| - 1];
      assert ps == init + [last];
      ReversedIsDescending(init);
      var r := Reversed(init);
      forall i | 0 <= i < |r|
        ensures Key(last) >= Key(r[i])
      {
        assert r[i] in multiset(r);
        assert r[i] in init;
      }
    }
  }

  /** The processes in the order in which the killer goes through them. */
  function Victims(ps: seq<Proc>): seq<Proc> {
    Reversed(SortByKey(ps))
  }

  lemma VictimsAreDescending(ps: seq<Proc>)
    ensures Descending(Victims(ps)) && multiset(Victims(ps)) == multiset(ps) && |Victims(ps)| == |ps|
  {
    SortIsSorted(ps);
    ReversedIsDescending(SortByKey(ps));
    assert |multiset(Victims(ps))| == |multiset(ps)|;
  }

  // ------------------------------------------------------------------
  // How many are killed
  // ------------------------------------------------------------------

  /** The processes that the signal reaches. */
  function Killable(ps: seq<Proc>, immune: set<int>): seq<Proc> {
    if ps == [] then [] else (if ps[0].pid in immune then [] else [ps[0]]) + Killable(ps[1..], immune)
  }

  function IsReachable(immune: set<int>): Proc -> bool {
    (p: Proc) => p.pid !in immune
  }

  /** Each process that the signal reaches is there, behind the reachable ones before it, and no other is. */
  lemma {:induction false} KillableAt(ps: seq<Proc>, immune: set<int>, i: nat)
    requires i < |ps| && ps[i].pid !in immune
    ensures var k := Count(ps[..i], IsReachable(immune));
            k < |Killable(ps, immune)| && Killable(ps, immune)[k] == ps[i]
    decreases |ps|
  {
    if i == 0 {
      assert ps[..0] == [];
    } else {
      KillableAt(ps[1..], immune, i - 1);
      assert ps[..i][1..] == ps[1..][..i - 1];
    }
  }

  lemma {:induction false} KillableLength(ps: seq<Proc>, immune: set<int>)
    ensures |Killable(ps, immune)| == Count(ps, IsReachable(immune))
    ensures forall p <- Killable(ps, immune) :: p.pid !in immune
  {
    if ps != [] {
      KillableLength(ps[1..], immune);
    }
  }

  /** The kills needed to bring `fraction` below the mark, or all of them. */
  function Kills(ps: seq<Proc>, fraction: real, hwm: real): seq<Proc> {
    if ps == [] then []
    else if fraction - ps[0].mem < hwm then [ps[0]]
    else [ps[0]] + Kills(ps[1..], fraction - ps[0].mem, hwm)
  }

  /** The processes killed, given those whose kill fails. */
  function Killed(ps: seq<Proc>, hwm: real, immune: set<int>): seq<Proc> {
    if Total(ps) > hwm then Kills(Killable(Victims(ps), immune), Total(ps), hwm) else []
  }

  lemma {:induction false} TotalCons(p: Proc, ps: seq<Proc>)
    ensures Total([p] + ps) == p.mem + Total(ps)
  {
    if ps == [] {
      assert ([p] + ps)[..0] == [];
    } else {
      assert ([p] + ps)[..|ps|] == [p] + ps[..|ps| - 1];
      TotalCons(p, ps[..|ps| - 1]);
    }
  }

  /** The kills are the first prefix that brings the total below the mark, or everything. */
  lemma {:induction false} KillsAreFirstPrefix(ps: seq<Proc>, fraction: real, hwm: real)
    ensures var k := |Kills(ps, fraction, hwm)|;
            && k <= |ps| && Kills(ps, fraction, hwm) == ps[..k]
            && (forall j | 1 <= j < k :: fraction - Total(ps[..j]) >= hwm)
            && (k < |ps| ==> k >= 1 && fraction - Total(ps[..k]) < hwm)
    decreases |ps|
  {
    if ps != [] {
      var tail := ps[1..];
      KillsAreFirstPrefix(tail, fraction - ps[0].mem, hwm);
      forall j | 1 <= j <= |ps|
        ensures Total(ps[..j]) == ps[0].mem + Total(tail[..j - 1])
      {
        assert ps[..j] == [ps[0]] + tail[..j - 1];
        TotalCons(ps[0], tail[..j - 1]);
      }
      assert tail[..0] == [];
      assert ps == [ps[0]] + tail;
    }
  }

  /** Nobody is killed up to the mark; above it somebody is, if the signal reaches anybody. */
  lemma {:induction false} KillsIffAboveTheMark(ps: seq<Proc>, hwm: real, immune: set<int>)
    ensures Killed(ps, hwm, immune) != [] <==> Total(ps) > hwm && exists i | 0 <= i < |ps| :: ps[i].pid !in immune
  {
    var d := Victims(ps);
    VictimsAreDescending(ps);
    if i: nat :| i < |ps| && ps[i].pid !in immune {
      SomebodyReachable(ps, d, immune, i);
    } else {
      NobodyReachable(ps, d, immune);
    }
    assert forall x: seq<Proc>, f: real :: x != [] ==> Kills(x, f, hwm) != [];
  }

  lemma SomebodyReachable(ps: seq<Proc>, d: seq<Proc>, immune: set<int>, i: nat)
    requires multiset(d) == multiset(ps) && i < |ps| && ps[i].pid !in immune
    ensures Killable(d, immune) != []
  {
    assert ps[i] in multiset(d);
    var j :| 0 <= j < |d| && d[j] == ps[i];
    KillableAt(d, immune, j);
  }

  lemma NobodyReachable(ps: seq<Proc>, d: seq<Proc>, immune: set<int>)
    requires multiset(d) == multiset(ps) && forall i | 0 <= i < |ps| :: ps[i].pid in immune
    ensures Killable(d, immune) == []
  {
    KillableLength(d, immune);
    forall i | 0 <= i < |d|
      ensures !IsReachable(immune)(d[i])
    {
      assert d[i] in multiset(ps);
    }
    CountNone(d, IsReachable(immune));
  }

  /** The sum of a weight over some processes. */
  function SumBy(ps: seq<Proc>, w: Proc -> real): real {
    if ps == [] then 0.0 else w(ps[0]) + SumBy(ps[1..], w)
  }

  function KeyWeight(): Proc -> real {
    (p: Proc) => Key(p) as real
  }

  function MemWeight(): Proc -> real {
    (p: Proc) => p.mem
  }

  lemma {:induction false} SumByAppend(a: seq<Proc>, b: seq<Proc>, w: Proc -> real)
    ensures SumBy(a + b, w) == SumBy(a, w) + SumBy(b, w)
  {
    if a == [] {
      assert a + b == b;
    } else {
      assert (a + b)[1..] == a[1..] + b;
      SumByAppend(a[1..], b, w);
    }
  }

  lemma {:induction false} SumByWithout(sel: seq<Proc>, i: nat, w: Proc -> real)
    requires i < |sel|
    ensures SumBy(sel, w) == SumBy(Without(sel, i), w) + w(sel[i])
    decreases i
  {
    if i == 0 {
      assert Without(sel, i) == sel[1..];
    } else {
      assert Without(sel, i)[1..] == Without(sel[1..], i - 1);
      SumByWithout(sel[1..], i - 1, w);
    }
  }

  lemma {:induction false} TotalIsSumOfMem(ps: seq<Proc>)
    ensures Total(ps) == SumBy(ps, MemWeight())
  {
    if ps != [] {
      TotalIsSumOfMem(ps[1..]);
      assert ps == [ps[0]] + ps[1..];
      TotalCons(ps[0], ps[1..]);
    }
  }

  lemma WithoutMultiset(sel: seq<Proc>, i: nat)
    requires i < |sel|
    ensures multiset(Without(sel, i)) + multiset{sel[i]} == multiset(sel)
  {
    assert sel == sel[..i] + [sel[i]] + sel[i + 1..];
  }

  ghost predicate DescendingBy(ps: seq<Proc>, w: Proc -> real) {
    forall i, j | 0 <= i < j < |ps| :: w(ps[i]) >= w(ps[j])
  }

  /** In a descending list, a window further down has a smaller sum. */
  lemma WindowSum(d: seq<Proc>, n: nat, w: Proc -> real)
    requires DescendingBy(d, w) && 0 < n < |d|
    ensures SumBy(d[1..][..n], w) <= SumBy(d[..n], w)
  {
    assert d[1..][..n] == d[1..n] + [d[n]];
    SumByAppend(d[1..n], [d[n]], w);
    assert [d[n]][1..] == [] && d[..n][1..] == d[1..n];
  }

  lemma WithoutFits(d: seq<Proc>, sel: seq<Proc>, i: nat)
    requires multiset(sel) <= multiset(d) && i < |sel| && d != [] && sel[i] == d[0]
    ensures multiset(Without(sel, i)) <= multiset(d[1..])
  {
    assert d == [d[0]] + d[1..];
    WithoutMultiset(sel, i);
    CancelOne(multiset(Without(sel, i)), multiset(d[1..]), d[0]);
  }

  /** The first processes of a descending list have the largest sum of all selections of that size. */
  lemma {:induction false} FirstOnesAreLargest(d: seq<Proc>, sel: seq<Proc>, w: Proc -> real)
    requires DescendingBy(d, w) && multiset(sel) <= multiset(d)
    ensures |sel| <= |d| && SumBy(sel, w) <= SumBy(d[..|sel|], w)
    decreases |d|
  {
    SubsetSize(multiset(sel), multiset(d));
    if sel != [] {
      assert d == [d[0]] + d[1..];
      assert DescendingBy(d[1..], w);
      if d[0] in sel {
        var i :| 0 <= i < |sel| && sel[i] == d[0];
        var rest := Without(sel, i);
        SumByWithout(sel, i, w);
        WithoutFits(d, sel, i);
        FirstOnesAreLargest(d[1..], rest, w);
        assert d[..|sel|][1..] == d[1..][..|rest|];
      } else {
        assert multiset(sel)[d[0]] == 0;
        assert multiset(sel) <= multiset(d[1..]);
        FirstOnesAreLargest(d[1..], sel, w);
        WindowSum(d, |sel|, w);
      }
    }
  }

  lemma CancelOne(a: multiset<Proc>, b: multiset<Proc>, x: Proc)
    requires a + multiset{x} <= b + multiset{x}
    ensures a <= b
  {
    forall p ensures a[p] <= b[p] {
      assert (a + multiset{x})[p] <= (b + multiset{x})[p];
    }
  }

  lemma SubsetSize(a: multiset<Proc>, b: multiset<Proc>)
    requires a <= b
    ensures |a| <= |b|
  {
    assert b == a + (b - a);
  }

  /** Keys are thousandths rounded down. */
  lemma {:induction false} TotalFromKeys(ps: seq<Proc>)
    ensures SumBy(ps, KeyWeight()) <= 1000.0 * Total(ps) <= SumBy(ps, KeyWeight()) + |ps| as real
    ensures ps != [] ==> 1000.0 * Total(ps) < SumBy(ps, KeyWeight()) + |ps| as real
  {
    if ps != [] {
      TotalFromKeys(ps[1..]);
      assert ps == [ps[0]] + ps[1..];
      TotalCons(ps[0], ps[1..]);
    }
  }

  lemma {:induction false} EveryoneIsKillable(ps: seq<Proc>)
    ensures Killable(ps, {}) == ps
  {
    if ps != [] {
      EveryoneIsKillable(ps[1..]);
    }
  }

  /**
  Near-optimality: if some selection of j processes would bring the total j thousandths below the
  mark, the killer kills at most j, whatever the selection.
   */
  lemma KillerIsNearOptimal(ps: seq<Proc>, hwm: real, sel: seq<Proc>)
    requires multiset(sel) <= multiset(ps)
    requires Total(ps) - Total(sel) <= hwm - (|sel| as real) / 1000.0
    ensures |Killed(ps, hwm, {})| <= |sel|
  {
    var d, j := Victims(ps), |sel|;
    VictimsAreDescending(ps);
    EveryoneIsKillable(d);
    FirstOnesAreLargest(d, sel, KeyWeight());
    TotalFromKeys(sel);
    TotalFromKeys(d[..j]);
    KillsAreFirstPrefix(d, Total(ps), hwm);
    if sel != [] {
      assert Total(ps) - Total(d[..j]) < hwm;
    }
  }

  // ------------------------------------------------------------------
  // When the order is by memory and the killer optimal
  // ------------------------------------------------------------------

  /** Among processes with one key, the smaller ones come first. */
  ghost predicate TiesAscend(ps: seq<Proc>) {
    forall i, j | 0 <= i < j < |ps| :: Key(ps[i]) == Key(ps[j]) ==> ps[i].mem <= ps[j].mem
  }

  ghost predicate NoneAbove(ps: seq<Proc>, p: Proc) {
    forall x <- ps :: Key(x) == Key(p) ==> x.mem <= p.mem
  }

  lemma TiesSnoc(ps: seq<Proc>, p: Proc)
    ensures TiesAscend(ps + [p]) <==> TiesAscend(ps) && NoneAbove(ps, p)
  {
    var all := ps + [p];
    assert forall i | 0 <= i < |ps| :: all[i] == ps[i];
    if TiesAscend(all) {
      forall x | x in ps && Key(x) == Key(p)
        ensures x.mem <= p.mem
      {
        var i :| 0 <= i < |ps| && ps[i] == x;
        assert all[i] == x && all[|ps|] == p;
      }
    }
  }

  lemma InsertMembers(sorted: seq<Proc>, p: Proc, x: Proc)
    ensures x in Insert(sorted, p) <==> x in sorted || x == p
  {
    InsertMultiset(sorted, p);
    assert x in multiset(Insert(sorted, p)) <==> x in multiset(sorted) + multiset{p};
  }

  /** Stability of one insertion. */
  lemma {:induction false} InsertKeepsTies(sorted: seq<Proc>, p: Proc)
    ensures TiesAscend(Insert(sorted, p)) <==> TiesAscend(sorted) && NoneAbove(sorted, p)
  {
    if sorted == [] || Key(sorted[|sorted| - 1]) <= Key(p) {
      TiesSnoc(sorted, p);
    } else {
      var init, last := sorted[..|sorted| - 1], sorted[|sorted| - 1];
      assert sorted == init + [last];
      InsertKeepsTies(init, p);
      TiesSnoc(Insert(init, p), last);
      TiesSnoc(init, last);
      forall x
        ensures x in Insert(init, p) <==> x in init || x == p
      {
        InsertMembers(init, p, x);
      }
      assert NoneAbove(Insert(init, p), last) <==> NoneAbove(init, last);
      assert NoneAbove(sorted, p) <==> NoneAbove(init, p);
    }
  }

  /** Stability of the sort: it keeps the order of processes with one key. */
  lemma {:induction false} SortKeepsTies(ps: seq<Proc>)
    ensures TiesAscend(SortByKey(ps)) <==> TiesAscend(ps)
  {
    if ps != [] {
      var init, p := ps[..|ps| - 1], ps[|ps| - 1];
      assert ps == init + [p];
      SortKeepsTies(init);
      InsertKeepsTies(SortByKey(init), p);
      TiesSnoc(init, p);
      SortIsSorted(init);
      assert forall x :: x in init <==> x in multiset(init);
      assert forall x :: x in SortByKey(init) <==> x in multiset(SortByKey(init));
    }
  }

  lemma {:induction false} ReversedAt(ps: seq<Proc>, i: nat)
    requires i < |ps|
    ensures |Reversed(ps)| == |ps| && Reversed(ps)[i] == ps[|ps| - 1 - i]
    decreases |ps|
  {
    if |ps| > 1 {
      ReversedAt(ps[..|ps| - 1], if i > 0 then i - 1 else 0);
    } else {
      assert Reversed(ps[..0]) == [];
    }
  }

  ghost predicate MemAscending(ps: seq<Proc>) {
    forall i, j | 0 <= i < j < |ps| :: ps[i].mem <= ps[j].mem
  }

  ghost predicate MemDescending(ps: seq<Proc>) {
    forall i, j | 0 <= i < j < |ps| :: ps[i].mem >= ps[j].mem
  }

  lemma ReversedMemory(ps: seq<Proc>)
    ensures MemDescending(Reversed(ps)) <==> MemAscending(ps)
  {
    var d, n := Reversed(ps), |ps|;
    if n > 0 {
      ReversedAt(ps, 0);
      forall i | 0 <= i < n
        ensures d[i] == ps[n - 1 - i]
      {
        ReversedAt(ps, i);
      }
      if MemDescending(d) {
        forall i, j | 0 <= i < j < n
          ensures ps[i].mem <= ps[j].mem
        {
          assert d[n - 1 - j] == ps[j] && d[n - 1 - i] == ps[i];
        }
      }
    }
  }

  /** Different keys order the memory already. */
  lemma SortedTies(ps: seq<Proc>)
    requires Ascending(ps)
    ensures MemAscending(ps) <==> TiesAscend(ps)
  {
    assert forall a: Proc, b: Proc | Key(a) < Key(b) :: a.mem < b.mem;
  }

  /**
  The victims are in descending order of memory if and only if, in the order in which the processes
  were listed, those with one key come smallest first.
   */
  lemma VictimsDescendInMemoryIff(ps: seq<Proc>)
    ensures MemDescending(Victims(ps)) <==> TiesAscend(ps)
  {
    SortIsSorted(ps);
    SortKeepsTies(ps);
    SortedTies(SortByKey(ps));
    ReversedMemory(SortByKey(ps));
  }

  /** The selection brings the total below the mark with fewer processes than the killer kills. */
  ghost predicate Beats(ps: seq<Proc>, hwm: real, sel: seq<Proc>) {
    multiset(sel) <= multiset(ps) && Total(ps) - Total(sel) < hwm && |Killed(ps, hwm, {})| > |sel|
  }

  /** Whatever the mark, no selection does better. */
  ghost predicate Optimal(ps: seq<Proc>) {
    forall hwm: real, sel: seq<Proc> :: !Beats(ps, hwm, sel)
  }

  lemma OrderedVictimsAreOptimal(ps: seq<Proc>, hwm: real, sel: seq<Proc>)
    requires MemDescending(Victims(ps))
    requires multiset(sel) <= multiset(ps) && Total(ps) - Total(sel) < hwm
    ensures |Killed(ps, hwm, {})| <= |sel|
  {
    var d, j := Victims(ps), |sel|;
    VictimsAreDescending(ps);
    EveryoneIsKillable(d);
    assert DescendingBy(d, MemWeight());
    FirstOnesAreLargest(d, sel, MemWeight());
    TotalIsSumOfMem(sel);
    TotalIsSumOfMem(d[..j]);
    KillsAreFirstPrefix(d, Total(ps), hwm);
  }

  lemma {:induction false} TotalGrows(ps: seq<Proc>, i: nat, j: nat)
    requires i <= j <= |ps|
    ensures 0.0 <= Total(ps[..i]) <= Total(ps[..j])
    decreases j
  {
    if j > 0 {
      assert ps[..j][..j - 1] == ps[..j - 1];
      if i < j {
        TotalGrows(ps, i, j - 1);
      } else {
        TotalGrows(ps, j - 1, j - 1);
      }
    }
  }

  /** A mark that the first `k + 1` victims do not reach takes more kills. */
  lemma TooFewKills(ps: seq<Proc>, hwm: real, k: nat)
    requires k + 1 < |Victims(ps)| && Total(ps) > hwm
    requires Total(ps) - Total(Victims(ps)[..k + 1]) >= hwm
    ensures |Killed(ps, hwm, {})| > k + 1
  {
    var d := Victims(ps);
    EveryoneIsKillable(d);
    KillsAreFirstPrefix(d, Total(ps), hwm);
    var n := |Kills(d, Total(ps), hwm)|;
    if n <= k + 1 {
      TotalGrows(d, n, k + 1);
    }
  }

  /** The victims before `k` and the one after it. */
  lemma SkipOne(d: seq<Proc>, k: nat)
    requires k + 1 < |d|
    ensures var sel := d[..k] + [d[k + 1]];
            && multiset(sel) <= multiset(d)
            && Total(sel) == Total(d[..k]) + d[k + 1].mem
            && Total(d[..k + 1]) == Total(d[..k]) + d[k].mem
  {
    var sel := d[..k] + [d[k + 1]];
    assert d == d[..k] + [d[k]] + [d[k + 1]] + d[k + 2..];
    assert sel[..k] == d[..k] && d[..k + 1][..k] == d[..k];
  }

  /** Two neighbours in the wrong order: at a suitable mark the killer kills one process too many. */
  lemma WrongOrderIsNotOptimal(ps: seq<Proc>, d: seq<Proc>, k: nat)
    requires d == Victims(ps) && k + 1 < |d| && d[k].mem < d[k + 1].mem
    ensures !Optimal(ps)
  {
    var sel, half := d[..k] + [d[k + 1]], (d[k + 1].mem - d[k].mem) / 2.0;
    var hwm := Total(ps) - Total(sel) + half;
    assert multiset(sel) <= multiset(ps) by {
      VictimsAreDescending(ps);
      SkipOne(d, k);
    }
    assert |Killed(ps, hwm, {})| > k + 1 by {
      SkipOne(d, k);
      TotalGrows(d, k, k);
      TooFewKills(ps, hwm, k);
    }
    assert Beats(ps, hwm, sel);
  }

  /** The killer is optimal for every mark if and only if processes with one key are listed smallest first. */
  lemma KillerIsOptimalIff(ps: seq<Proc>)
    ensures Optimal(ps) <==> TiesAscend(ps)
  {
    VictimsDescendInMemoryIff(ps);
    if MemDescending(Victims(ps)) {
      forall hwm: real, sel: seq<Proc>
        ensures !Beats(ps, hwm, sel)
      {
        if multiset(sel) <= multiset(ps) && Total(ps) - Total(sel) < hwm {
          OrderedVictimsAreOptimal(ps, hwm, sel);
        }
      }
    } else {
      var k := FirstDisorder(Victims(ps));
      WrongOrderIsNotOptimal(ps, Victims(ps), k);
    }
  }

  lemma DescendingCons(d: seq<Proc>)
    requires |d| > 1 && d[0].mem >= d[1].mem && MemDescending(d[1..])
    ensures MemDescending(d)
  {
    assert forall i | 0 < i < |d| :: d[i] == d[1..][i - 1];
  }

  /** A list that is not descending has two neighbours in the wrong order. */
  lemma {:induction false} FirstDisorder(d: seq<Proc>) returns (k: nat)
    requires !MemDescending(d)
    ensures k + 1 < |d| && d[k].mem < d[k + 1].mem
    decreases |d|
  {
    k := 0;
    if d[0].mem >= d[1].mem {
      if MemDescending(d[1..]) {
        DescendingCons(d);
      } else {
        var m := FirstDisorder(d[1..]);
        k := m + 1;
      }
    }
  }

  /** Two processes with one key, the larger one listed first: the smaller one is killed, to no avail. */
  lemma KillerIsNotAlwaysOptimal()
    ensures var ps := [Proc(1, 0.0019), Proc(2, 0.0010)]; Key(ps[0]) == Key(ps[1]) && !Optimal(ps)
  {
    var ps := [Proc(1, 0.0019), Proc(2, 0.0010)];
    KillerIsOptimalIff(ps);
  }

  // ------------------------------------------------------------------
  // The loops
  // ------------------------------------------------------------------

  /** The kills among the remaining victims, given those that the signal does not reach. */
  ghost function Pending(left: seq<Proc>, fraction: real, hwm: real, immune: set<int>): seq<Proc> {
    Kills(Killable(left, immune), fraction, hwm)
  }

  /** What the first of the remaining victims adds to the kills. */
  lemma PendingStep(left: seq<Proc>, fraction: real, hwm: real, immune: set<int>)
    requires left != []
    ensures Pending(left, fraction, hwm, immune) ==
            if left[0].pid in immune then Pending(left[1..], fraction, hwm, immune)
            else if fraction - left[0].mem < hwm then [left[0]]
            else [left[0]] + Pending(left[1..], fraction - left[0].mem, hwm, immune)
  {
    var p, rest := left[0], Killable(left[1..], immune);
    assert [] + rest == rest && ([p] + rest)[1..] == rest;
  }

  method Sum(ps: seq<Proc>) returns (fraction: real)
    ensures fraction == Total(ps)
  {
    fraction := 0.0;
    for i := 0 to |ps|
      invariant fraction == Total(ps[..i])
    {
      assert ps[..i + 1][..i] == ps[..i];
      fraction := fraction + ps[i].mem;
    }
    assert ps[..|ps|] == ps;
  }

  /** The kill loop over the victims in their order. */
  method KillInOrder(victims: seq<Proc>, total: real, hwm: real, immune: set<int>) returns (killed: seq<Proc>)
    ensures killed == Kills(Killable(victims, immune), total, hwm)
  {
    killed := [];
    var fraction, left := total, victims;
    ghost var todo := Pending(victims, total, hwm, immune);
    while left != []
      invariant todo == Pending(left, fraction, hwm, immune)
      invariant Pending(victims, total, hwm, immune) == killed + todo
      decreases |left|
    {
      PendingStep(left, fraction, hwm, immune);
      var p := left[0];
      left := left[1..];
      if p.pid in immune {
        continue;
      }
      killed := killed + [p];
      fraction := fraction - p.mem;
      if fraction < hwm {
        return;
      }
      todo := todo[1..];
    }
  }

  /** `immune` are the processes that the signal fails to reach. */
  method KillOutOfMemoryProcesses(ps: seq<Proc>, hwm: real, immune: set<int>) returns (killed: seq<Proc>)
    ensures killed == Killed(ps, hwm, immune)
  {
    killed := [];
    var fraction := Sum(ps);
    if fraction > hwm {
      killed := KillInOrder(Victims(ps), fraction, hwm, immune);
    }
  }
}
