/**
  A bounded table of per-source states, fed one item at a time, as sink.c keeps it.
  What one item does to its own slot is left open; the theorems say that the table is
  then nothing but independent runs, one per admitted source, and their findings added up.
 */
module FanIn {
  import opened Machine

  const MAX_SOURCES: nat := 16

  /** How one source's state starts and moves, and what is found on the way. */
  datatype Checker<!S, !F, !K(==)> = Checker(
    idOf: F -> u32,
    start: u32 -> S,
    next: (S, F) -> S,
    admission: u32 -> multiset<K>,
    findings: (S, F) -> multiset<K>)

  /** The slots in use, in order of first appearance, and everything found so far. */
  datatype Table<S, K(==)> = Table(ids: seq<u32>, slots: seq<S>, found: multiset<K>)

  /** The position of the first occurrence of `id` at or after `from`, or the length. */
  function IndexOf(ids: seq<u32>, id: u32, from: nat): (j: nat)
    requires from <= |ids|
    ensures from <= j <= |ids|
    ensures j < |ids| ==> ids[j] == id
    ensures forall k :: from <= k < j ==> ids[k] != id
    decreases |ids| - from
  {
    if from == |ids| || ids[from] == id then from else IndexOf(ids, id, from + 1)
  }

  ghost predicate Distinct(ids: seq<u32>) {
    forall i, j :: 0 <= i < j < |ids| ==> ids[i] != ids[j]
  }

  /** Used slots are a prefix of the fixed array, with distinct ids. */
  ghost predicate Valid<S, K>(t: Table<S, K>) {
    |t.ids| == |t.slots| <= MAX_SOURCES && Distinct(t.ids)
  }

  function Update<S, F, K>(ck: Checker<S, F, K>, t: Table<S, K>, k: nat, f: F): Table<S, K>
    requires k < |t.slots|
  {
    t.(slots := t.slots[k := ck.next(t.slots[k], f)], found := t.found + ck.findings(t.slots[k], f))
  }

  function Admit<S, F, K>(ck: Checker<S, F, K>, t: Table<S, K>, id: u32): Table<S, K> {
    Table(t.ids + [id], t.slots + [ck.start(id)], t.found + ck.admission(id))
  }

  /** Find or claim a slot, then check; an item whose source finds no slot changes nothing. */
  function Step<S, F, K>(ck: Checker<S, F, K>, t: Table<S, K>, f: F): (r: Table<S, K>)
    requires |t.ids| == |t.slots|
    ensures |r.ids| == |r.slots|
    ensures Valid(t) ==> Valid(r)
  {
    var id := ck.idOf(f);
    var k := IndexOf(t.ids, id, 0);
    if k < |t.ids| then Update(ck, t, k, f)
    else if |t.ids| < MAX_SOURCES then Update(ck, Admit(ck, t, id), |t.ids|, f)
    else t
  }

  function Run<S, F, K>(ck: Checker<S, F, K>, fs: seq<F>): (t: Table<S, K>)
    ensures Valid(t)
  {
    if fs == [] then Table([], [], multiset{}) else Step(ck, Run(ck, fs[..|fs| - 1]), fs[|fs| - 1])
  }

  // ---- the same thing, one source at a time ----

  /** One source's items. */
  function Substream<S, F, K>(ck: Checker<S, F, K>, id: u32, fs: seq<F>): seq<F> {
    if fs == [] then []
    else Substream(ck, id, fs[..|fs| - 1]) + (if ck.idOf(fs[|fs| - 1]) == id then [fs[|fs| - 1]] else [])
  }

  /** The ids the table has room for: the first sixteen distinct ones. */
  function Admitted<S, F, K>(ck: Checker<S, F, K>, fs: seq<F>): (ids: seq<u32>)
    ensures |ids| <= MAX_SOURCES && Distinct(ids)
  {
    if fs == [] then []
    else
      var before, id := Admitted(ck, fs[..|fs| - 1]), ck.idOf(fs[|fs| - 1]);
      if IndexOf(before, id, 0) < |before| || |before| == MAX_SOURCES then before else before + [id]
  }

  /** A single source's state, fed only its own items. */
  function Alone<S, F, K>(ck: Checker<S, F, K>, id: u32, s: seq<F>): S {
    if s == [] then ck.start(id) else ck.next(Alone(ck, id, s[..|s| - 1]), s[|s| - 1])
  }

  /** What is found in a single source. */
  function Share<S, F, K>(ck: Checker<S, F, K>, id: u32, s: seq<F>): multiset<K> {
    if s == [] then ck.admission(id)
    else Share(ck, id, s[..|s| - 1]) + ck.findings(Alone(ck, id, s[..|s| - 1]), s[|s| - 1])
  }

  function Shares<S, F, K>(ck: Checker<S, F, K>, ids: seq<u32>, fs: seq<F>): (shares: seq<multiset<K>>)
    ensures |shares| == |ids|
    ensures forall i :: 0 <= i < |ids| ==> shares[i] == Share(ck, ids[i], Substream(ck, ids[i], fs))
  {
    seq(|ids|, i requires 0 <= i < |ids| => Share(ck, ids[i], Substream(ck, ids[i], fs)))
  }

  function Sum<K>(shares: seq<multiset<K>>): multiset<K> {
    if shares == [] then multiset{} else Sum(shares[..|shares| - 1]) + shares[|shares| - 1]
  }

  // ---- sums ----

  lemma Snoc<T>(s: seq<T>, x: T)
    ensures (s + [x])[..|s + [x]| - 1] == s && (s + [x])[|s + [x]| - 1] == x
  {
  }

  lemma {:induction false} SumUpdate<K>(shares: seq<multiset<K>>, k: nat, more: multiset<K>)
    requires k < |shares|
    ensures Sum(shares[k := shares[k] + more]) == Sum(shares) + more
    decreases |shares|
  {
    var last := |shares| - 1;
    var updated := shares[k := shares[k] + more];
    if k == last {
      assert updated[..last] == shares[..last];
    } else {
      SumUpdate(shares[..last], k, more);
      assert updated[..last] == shares[..last][k := shares[k] + more];
    }
  }

  lemma SumSnoc<K>(shares: seq<multiset<K>>, share: multiset<K>)
    ensures Sum(shares + [share]) == Sum(shares) + share
  {
    Snoc(shares, share);
  }

  lemma {:induction false} SumTakeOut<K>(shares: seq<multiset<K>>, k: nat)
    requires k < |shares|
    ensures Sum(shares) == Sum(shares[..k] + shares[k + 1..]) + shares[k]
    decreases |shares|
  {
    var last := |shares| - 1;
    if k == last {
      assert shares[..k] + shares[k + 1..] == shares[..last];
    } else {
      SumTakeOut(shares[..last], k);
      var rest := shares[..last][..k] + shares[..last][k + 1..];
      assert shares[..k] + shares[k + 1..] == rest + [shares[last]];
      SumSnoc(rest, shares[last]);
    }
  }

  /** A kind is found in the sum exactly when some source shows it. */
  lemma {:induction false} SumContains<K>(shares: seq<multiset<K>>, kind: K)
    ensures Sum(shares)[kind] == 0 <==> forall i :: 0 <= i < |shares| ==> shares[i][kind] == 0
    decreases |shares|
  {
    if shares != [] {
      SumContains(shares[..|shares| - 1], kind);
    }
  }

  // ---- one item against the sum ----

  lemma SubstreamSnoc<S, F, K>(ck: Checker<S, F, K>, id: u32, fs: seq<F>, f: F)
    ensures Substream(ck, id, fs + [f]) == Substream(ck, id, fs) + (if ck.idOf(f) == id then [f] else [])
  {
    Snoc(fs, f);
  }

  /** A source's run and share grow by its own items only. */
  lemma ShareGrows<S, F, K>(ck: Checker<S, F, K>, id: u32, fs: seq<F>, f: F)
    ensures var s := Substream(ck, id, fs);
            var s' := Substream(ck, id, fs + [f]);
            if ck.idOf(f) == id then
              && Alone(ck, id, s') == ck.next(Alone(ck, id, s), f)
              && Share(ck, id, s') == Share(ck, id, s) + ck.findings(Alone(ck, id, s), f)
            else s' == s
  {
    SubstreamSnoc(ck, id, fs, f);
    if ck.idOf(f) == id {
      Snoc(Substream(ck, id, fs), f);
    }
  }

  // ---- the decomposition ----

  /** Every slot is its source's own run. */
  ghost predicate OwnRuns<S, F, K>(ck: Checker<S, F, K>, ids: seq<u32>, slots: seq<S>, fs: seq<F>) {
    && |slots| == |ids|
    && forall i :: 0 <= i < |ids| ==> slots[i] == Alone(ck, ids[i], Substream(ck, ids[i], fs))
  }

  /** Each slot is its source's own run, and what was found is the sum of the shares. */
  ghost predicate Independent<S, F, K>(ck: Checker<S, F, K>, t: Table<S, K>, fs: seq<F>) {
    && Distinct(t.ids)
    && OwnRuns(ck, t.ids, t.slots, fs)
    && t.found == Sum(Shares(ck, t.ids, fs))
  }

  lemma UpdateRuns<S, F, K>(ck: Checker<S, F, K>, ids: seq<u32>, slots: seq<S>, fs: seq<F>, f: F, k: nat)
    requires Distinct(ids) && OwnRuns(ck, ids, slots, fs) && k < |ids| && ids[k] == ck.idOf(f)
    ensures OwnRuns(ck, ids, slots[k := ck.next(slots[k], f)], fs + [f])
  {
    var after := slots[k := ck.next(slots[k], f)];
    forall i | 0 <= i < |ids|
      ensures after[i] == Alone(ck, ids[i], Substream(ck, ids[i], fs + [f]))
    {
      ShareGrows(ck, ids[i], fs, f);
      assert i != k ==> ids[i] != ids[k];
    }
  }

  lemma UpdateShares<S, F, K>(ck: Checker<S, F, K>, ids: seq<u32>, fs: seq<F>, f: F, k: nat, more: multiset<K>)
    requires Distinct(ids) && k < |ids| && ids[k] == ck.idOf(f)
    requires more == ck.findings(Alone(ck, ids[k], Substream(ck, ids[k], fs)), f)
    ensures Sum(Shares(ck, ids, fs + [f])) == Sum(Shares(ck, ids, fs)) + more
  {
    var before, after := Shares(ck, ids, fs), Shares(ck, ids, fs + [f]);
    forall i | 0 <= i < |ids|
      ensures after[i] == before[k := before[k] + more][i]
    {
      ShareGrows(ck, ids[i], fs, f);
      assert i != k ==> ids[i] != ids[k];
    }
    assert after == before[k := before[k] + more];
    SumUpdate(before, k, more);
  }

  lemma UpdateIndependent<S, F, K>(ck: Checker<S, F, K>, t: Table<S, K>, fs: seq<F>, f: F, k: nat)
    requires Independent(ck, t, fs) && k < |t.ids| && t.ids[k] == ck.idOf(f)
    ensures Independent(ck, Update(ck, t, k, f), fs + [f])
  {
    UpdateRuns(ck, t.ids, t.slots, fs, f, k);
    UpdateShares(ck, t.ids, fs, f, k, ck.findings(t.slots[k], f));
  }

  lemma AdmitShares<S, F, K>(ck: Checker<S, F, K>, ids: seq<u32>, fs: seq<F>, id: u32)
    requires Substream(ck, id, fs) == []
    ensures Sum(Shares(ck, ids + [id], fs)) == Sum(Shares(ck, ids, fs)) + ck.admission(id)
  {
    assert Shares(ck, ids + [id], fs) == Shares(ck, ids, fs) + [ck.admission(id)];
    SumSnoc(Shares(ck, ids, fs), ck.admission(id));
  }

  lemma AdmitIndependent<S, F, K>(ck: Checker<S, F, K>, t: Table<S, K>, fs: seq<F>, id: u32)
    requires Independent(ck, t, fs) && Substream(ck, id, fs) == []
    requires forall i :: 0 <= i < |t.ids| ==> t.ids[i] != id
    ensures Independent(ck, Admit(ck, t, id), fs)
  {
    AdmitShares(ck, t.ids, fs, id);
  }

  lemma IgnoreIndependent<S, F, K>(ck: Checker<S, F, K>, t: Table<S, K>, fs: seq<F>, f: F)
    requires Independent(ck, t, fs)
    requires forall i :: 0 <= i < |t.ids| ==> t.ids[i] != ck.idOf(f)
    ensures Independent(ck, t, fs + [f])
  {
    forall i | 0 <= i < |t.ids|
      ensures Substream(ck, t.ids[i], fs + [f]) == Substream(ck, t.ids[i], fs)
    {
      SubstreamSnoc(ck, t.ids[i], fs, f);
    }
    assert Shares(ck, t.ids, fs + [f]) == Shares(ck, t.ids, fs);
  }

  lemma AdmittedSnoc<S, F, K>(ck: Checker<S, F, K>, fs: seq<F>, f: F)
    ensures var before := Admitted(ck, fs);
            Admitted(ck, fs + [f]) ==
            if IndexOf(before, ck.idOf(f), 0) < |before| || |before| == MAX_SOURCES then before
            else before + [ck.idOf(f)]
  {
    Snoc(fs, f);
  }

  /** An id the table does not hold, while there is room, has sent nothing yet. */
  lemma {:induction false} UnseenIsEmpty<S, F, K>(ck: Checker<S, F, K>, fs: seq<F>, id: u32)
    requires |Admitted(ck, fs)| < MAX_SOURCES
    requires forall k :: 0 <= k < |Admitted(ck, fs)| ==> Admitted(ck, fs)[k] != id
    ensures Substream(ck, id, fs) == []
  {
    if fs != [] {
      var before, last := fs[..|fs| - 1], ck.idOf(fs[|fs| - 1]);
      var k := IndexOf(Admitted(ck, before), last, 0);
      forall i | 0 <= i < |Admitted(ck, before)|
        ensures Admitted(ck, before)[i] != id
      {
        assert Admitted(ck, fs)[i] == Admitted(ck, before)[i];
      }
      UnseenIsEmpty(ck, before, id);
      assert last != id by {
        if k < |Admitted(ck, before)| {
          assert Admitted(ck, fs)[k] == last;
        } else {
          assert Admitted(ck, fs)[|Admitted(ck, before)|] == last;
        }
      }
    }
  }

  lemma NewcomerIndependent<S, F, K>(ck: Checker<S, F, K>, t: Table<S, K>, fs: seq<F>, f: F)
    requires t.ids == Admitted(ck, fs) && Independent(ck, t, fs) && |t.ids| < MAX_SOURCES
    requires forall i :: 0 <= i < |t.ids| ==> t.ids[i] != ck.idOf(f)
    ensures |Admit(ck, t, ck.idOf(f)).slots| == |t.ids| + 1
    ensures Independent(ck, Update(ck, Admit(ck, t, ck.idOf(f)), |t.ids|, f), fs + [f])
  {
    UnseenIsEmpty(ck, fs, ck.idOf(f));
    AdmitIndependent(ck, t, fs, ck.idOf(f));
    UpdateIndependent(ck, Admit(ck, t, ck.idOf(f)), fs, f, |t.ids|);
  }

  /** The table and the admitted ids move together. */
  lemma StepAdmits<S, F, K>(ck: Checker<S, F, K>, t: Table<S, K>, fs: seq<F>, f: F)
    requires t.ids == Admitted(ck, fs) && |t.slots| == |t.ids|
    ensures Step(ck, t, f).ids == Admitted(ck, fs + [f])
  {
    AdmittedSnoc(ck, fs, f);
  }

  lemma StepIndependent<S, F, K>(ck: Checker<S, F, K>, t: Table<S, K>, fs: seq<F>, f: F)
    requires t.ids == Admitted(ck, fs) && Independent(ck, t, fs)
    ensures Independent(ck, Step(ck, t, f), fs + [f])
  {
    var k := IndexOf(t.ids, ck.idOf(f), 0);
    if k < |t.ids| {
      UpdateIndependent(ck, t, fs, f, k);
    } else if |t.ids| < MAX_SOURCES {
      NewcomerIndependent(ck, t, fs, f);
    } else {
      IgnoreIndependent(ck, t, fs, f);
    }
  }

  lemma DecomposeStep<S, F, K>(ck: Checker<S, F, K>, fs: seq<F>, f: F)
    requires Run(ck, fs).ids == Admitted(ck, fs) && Independent(ck, Run(ck, fs), fs)
    ensures Run(ck, fs + [f]) == Step(ck, Run(ck, fs), f)
    ensures Run(ck, fs + [f]).ids == Admitted(ck, fs + [f])
    ensures Independent(ck, Run(ck, fs + [f]), fs + [f])
  {
    Snoc(fs, f);
    StepAdmits(ck, Run(ck, fs), fs, f);
    StepIndependent(ck, Run(ck, fs), fs, f);
  }

  /**
    Whatever the stream: the table holds the first sixteen distinct ids, each slot is
    its source's own run, and what was found is the sum of the sources' shares.
   */
  lemma {:induction false} Decompose<S, F, K>(ck: Checker<S, F, K>, fs: seq<F>)
    ensures Run(ck, fs).ids == Admitted(ck, fs)
    ensures Independent(ck, Run(ck, fs), fs)
  {
    if fs != [] {
      var before, f := fs[..|fs| - 1], fs[|fs| - 1];
      assert fs == before + [f];
      Decompose(ck, before);
      DecomposeStep(ck, before, f);
    }
  }

  // ---- the order of the sources ----

  /** Two listings of the same sources. */
  ghost predicate Rearranged(a: seq<u32>, b: seq<u32>) {
    && |a| == |b| && Distinct(a) && Distinct(b)
    && forall i :: 0 <= i < |a| ==> IndexOf(b, a[i], 0) < |b|
  }

  lemma RearrangedRest(a: seq<u32>, b: seq<u32>, k: nat)
    requires Rearranged(a, b) && a != [] && k < |b| && b[k] == a[|a| - 1]
    ensures Rearranged(a[..|a| - 1], b[..k] + b[k + 1..])
  {
    var front, rest := a[..|a| - 1], b[..k] + b[k + 1..];
    forall i | 0 <= i < |front|
      ensures IndexOf(rest, front[i], 0) < |rest|
    {
      var j := IndexOf(b, a[i], 0);
      assert rest[if j < k then j else j - 1] == a[i];
    }
  }

  lemma PutBack<S, F, K>(ck: Checker<S, F, K>, a: seq<u32>, b: seq<u32>, k: nat, fs: seq<F>, gs: seq<F>)
    requires a != [] && k < |b| && b[k] == a[|a| - 1]
    requires Substream(ck, b[k], fs) == Substream(ck, b[k], gs)
    requires Sum(Shares(ck, a[..|a| - 1], fs)) == Sum(Shares(ck, b[..k] + b[k + 1..], gs))
    ensures Sum(Shares(ck, a, fs)) == Sum(Shares(ck, b, gs))
  {
    var ours, theirs := Shares(ck, a, fs), Shares(ck, b, gs);
    assert Shares(ck, b[..k] + b[k + 1..], gs) == theirs[..k] + theirs[k + 1..];
    assert Shares(ck, a[..|a| - 1], fs) == ours[..|a| - 1];
    SumTakeOut(theirs, k);
  }

  lemma {:induction false} OrderIrrelevant<S, F, K>(
      ck: Checker<S, F, K>, a: seq<u32>, b: seq<u32>, fs: seq<F>, gs: seq<F>)
    requires Rearranged(a, b)
    requires forall i :: 0 <= i < |a| ==> Substream(ck, a[i], fs) == Substream(ck, a[i], gs)
    ensures Sum(Shares(ck, a, fs)) == Sum(Shares(ck, b, gs))
    decreases |a|
  {
    if a != [] {
      var k := IndexOf(b, a[|a| - 1], 0);
      RearrangedRest(a, b, k);
      OrderIrrelevant(ck, a[..|a| - 1], b[..k] + b[k + 1..], fs, gs);
      PutBack(ck, a, b, k, fs, gs);
    }
  }
}
