/** Gathering items by a key, as a list of groups a loop finds or opens, and
    totals that do not depend on the order of what is added up. */
module Gatherings {
  import opened Collections
  import opened Sorting

  type Batch<K> = (K, seq<nat>)

  function Keyed<K(==)>(k: K): Batch<K> -> bool {
    (g: Batch<K>) => g.0 == k
  }

  function HasKey<K(==)>(key: nat -> K, k: K): nat -> bool {
    (x: nat) => key(x) == k
  }

  /** One more item: behind its group's, or alone in a new group. */
  function Joined<K(==)>(gs: seq<Batch<K>>, k: K, x: nat): (r: seq<Batch<K>>) {
    match FirstPosition(gs, Keyed(k))
    case Some(a) => gs[a := (gs[a].0, gs[a].1 + [x])]
    case None => gs + [(k, [x])]
  }

  /** The items by key, groups in the order of their first items. */
  function Groups<K(==)>(items: seq<nat>, key: nat -> K): (gs: seq<Batch<K>>) {
    if items == [] then []
    else Joined(Groups(items[..|items| - 1], key), key(items[|items| - 1]), items[|items| - 1])
  }

  method Gather<K(==)>(items: seq<nat>, key: nat -> K) returns (gs: seq<Batch<K>>)
    ensures gs == Groups(items, key)
  {
    gs := [];
    for i := 0 to |items|
      invariant gs == Groups(items[..i], key)
    {
      assert items[..i + 1][..i] == items[..i];
      var found := FirstPosition(gs, Keyed(key(items[i])));
      match found {
        case Some(a) => gs := gs[a := (gs[a].0, gs[a].1 + [items[i]])];
        case None => gs := gs + [(key(items[i]), [items[i]])];
      }
    }
    assert items[..|items|] == items;
  }

  /** Each group holds, in order, exactly the items with its key. */
  ghost predicate HoldKeys<K(!new)>(gs: seq<Batch<K>>, items: seq<nat>, key: nat -> K) {
    forall a :: 0 <= a < |gs| ==> gs[a].1 != [] && gs[a].1 == Filter<nat>(items, HasKey(key, gs[a].0))
  }

  ghost predicate KeysDiffer<K(!new)>(gs: seq<Batch<K>>) {
    forall a, b :: 0 <= a < b < |gs| ==> gs[a].0 != gs[b].0
  }

  ghost function Keys<K(!new)>(gs: seq<Batch<K>>): set<K> {
    set g | g in gs :: g.0
  }

  /** Every key of an item has its group. */
  ghost predicate KeysCovered<K(!new)>(gs: seq<Batch<K>>, items: seq<nat>, key: nat -> K) {
    forall x :: x in items ==> key(x) in Keys(gs)
  }

  lemma FilterOne(items: seq<nat>, x: nat, p: nat -> bool)
    ensures Filter<nat>(items + [x], p) == Filter<nat>(items, p) + if p(x) then [x] else []
  {
    assert (items + [x])[..|items|] == items;
  }

  lemma {:induction false} NoneKeyed<K(!new)>(items: seq<nat>, key: nat -> K, k: K)
    requires forall i :: 0 <= i < |items| ==> key(items[i]) != k
    ensures Filter<nat>(items, HasKey(key, k)) == []
  {
    if items != [] {
      NoneKeyed(items[..|items| - 1], key, k);
    }
  }

  lemma HoldNext<K(!new)>(gs: seq<Batch<K>>, items: seq<nat>, key: nat -> K, x: nat)
    requires HoldKeys(gs, items, key) && KeysDiffer(gs) && KeysCovered(gs, items, key)
    ensures HoldKeys(Joined(gs, key(x), x), items + [x], key)
  {
    var k := key(x);
    var found := FirstPosition(gs, Keyed(k));
    var more := Joined(gs, k, x);
    forall a | 0 <= a < |more|
      ensures more[a].1 != [] && more[a].1 == Filter<nat>(items + [x], HasKey(key, more[a].0))
    {
      FilterOne(items, x, HasKey(key, more[a].0));
      if a < |gs| {
        assert found.None? ==> !Keyed(k)(gs[a]);
      } else {
        Unkeyed(gs, items, key, k);
      }
    }
  }

  lemma Unkeyed<K(!new)>(gs: seq<Batch<K>>, items: seq<nat>, key: nat -> K, k: K)
    requires KeysCovered(gs, items, key) && FirstPosition(gs, Keyed(k)).None?
    ensures Filter<nat>(items, HasKey(key, k)) == []
  {
    forall i | 0 <= i < |items| ensures key(items[i]) != k {
      assert key(items[i]) in Keys(gs);
      var g :| g in gs && g.0 == key(items[i]);
      assert !Keyed(k)(g);
    }
    NoneKeyed(items, key, k);
  }

  lemma DifferNext<K(!new)>(gs: seq<Batch<K>>, k: K, x: nat)
    requires KeysDiffer(gs)
    ensures KeysDiffer(Joined(gs, k, x))
  {
    var more := Joined(gs, k, x);
    forall a, b | 0 <= a < b < |more| ensures more[a].0 != more[b].0 {
      if b == |gs| {
        assert !Keyed(k)(gs[a]);
      }
    }
  }

  lemma CoveredNext<K(!new)>(gs: seq<Batch<K>>, items: seq<nat>, key: nat -> K, x: nat)
    requires KeysCovered(gs, items, key)
    ensures KeysCovered(Joined(gs, key(x), x), items + [x], key)
  {
    KeysNext(gs, key(x), x);
  }

  lemma KeysNext<K(!new)>(gs: seq<Batch<K>>, k: K, x: nat)
    ensures Keys(Joined(gs, k, x)) == Keys(gs) + {k}
  {
    var more := Joined(gs, k, x);
    match FirstPosition(gs, Keyed(k)) {
      case Some(a) =>
        assert gs[a].0 == k;
        forall l ensures l in Keys(more) <==> l in Keys(gs) {
          if l in Keys(gs) {
            var b :| 0 <= b < |gs| && gs[b].0 == l;
            assert more[b] in more && more[b].0 == l;
          }
          if l in Keys(more) {
            var b :| 0 <= b < |more| && more[b].0 == l;
            assert gs[b] in gs && gs[b].0 == l;
          }
        }
      case None =>
        assert more == gs + [(k, [x])];
    }
  }

  lemma {:induction false} GroupsHoldTheirKeys<K(!new)>(items: seq<nat>, key: nat -> K)
    ensures HoldKeys(Groups(items, key), items, key)
    ensures KeysDiffer(Groups(items, key)) && KeysCovered(Groups(items, key), items, key)
  {
    if items != [] {
      var rest, x := items[..|items| - 1], items[|items| - 1];
      GroupsHoldTheirKeys(rest, key);
      var before := Groups(rest, key);
      HoldNext(before, rest, key, x);
      DifferNext(before, key(x), x);
      CoveredNext(before, rest, key, x);
      assert items == rest + [x];
    }
  }

  lemma SortedKeysDiffer<K(!new)>(gs: seq<Batch<K>>, leq: (Batch<K>, Batch<K>) -> bool)
    requires KeysDiffer(gs)
    ensures KeysDiffer(StableSort(gs, leq)) && Keys(StableSort(gs, leq)) == Keys(gs)
  {
    var sorted := StableSort(gs, leq);
    SortMembers(gs, leq);
    assert Distinct(gs);
    SortDistinct(gs, leq);
    forall a, b | 0 <= a < b < |sorted| ensures sorted[a].0 != sorted[b].0 {
      assert sorted[a] in sorted && sorted[b] in sorted;
      assert sorted[a] != sorted[b];
    }
  }

  /** Sorting groups keeps what holds of each and of every two. */
  lemma SortedGroupsHold<K(!new)>(items: seq<nat>, key: nat -> K, leq: (Batch<K>, Batch<K>) -> bool)
    ensures HoldKeys(StableSort(Groups(items, key), leq), items, key)
    ensures KeysDiffer(StableSort(Groups(items, key), leq))
    ensures KeysCovered(StableSort(Groups(items, key), leq), items, key)
  {
    var gs := Groups(items, key);
    var sorted := StableSort(gs, leq);
    GroupsHoldTheirKeys(items, key);
    SortMembers(gs, leq);
    SortedKeysDiffer(gs, leq);
    forall a | 0 <= a < |sorted|
      ensures sorted[a].1 != [] && sorted[a].1 == Filter<nat>(items, HasKey(key, sorted[a].0))
    {
      assert sorted[a] in sorted;
    }
  }

  // ----- Totals

  function Members<K>(gs: seq<Batch<K>>): (ss: seq<seq<nat>>)
    ensures |ss| == |gs| && forall a :: 0 <= a < |gs| ==> ss[a] == gs[a].1
  {
    seq(|gs|, a requires 0 <= a < |gs| => gs[a].1)
  }

  lemma FlattenSplit<T>(ss: seq<seq<T>>, k: nat)
    requires k < |ss|
    ensures multiset(Flatten(ss)) == multiset(Flatten(ss[..k] + ss[k + 1..])) + multiset(ss[k])
  {
    assert ss == ss[..k] + ([ss[k]] + ss[k + 1..]);
    FlattenAppend(ss[..k], [ss[k]] + ss[k + 1..]);
    FlattenAppend([ss[k]], ss[k + 1..]);
    FlattenAppend(ss[..k], ss[k + 1..]);
    FlattenOne(ss[k]);
  }

  lemma FlattenOne<T>(s: seq<T>)
    ensures Flatten([s]) == s
  {
    assert [s][..0] == [];
    assert Flatten([s]) == Flatten<T>([]) + s;
  }

  /** The last of `s`, taken out of its permutation `t`. */
  lemma TakeOut<T>(s: seq<T>, t: seq<T>) returns (k: nat)
    requires s != [] && multiset(s) == multiset(t)
    ensures k < |t| && t[k] == s[|s| - 1]
    ensures multiset(s[..|s| - 1]) == multiset(t[..k] + t[k + 1..])
  {
    var n := |s| - 1;
    assert s == s[..n] + [s[n]];
    assert s[n] in multiset(t);
    k :| 0 <= k < |t| && t[k] == s[n];
    assert t == t[..k] + [t[k]] + t[k + 1..];
    assert multiset(s[..n]) == multiset(s) - multiset{s[n]};
    assert multiset(t[..k] + t[k + 1..]) == multiset(t) - multiset{t[k]};
  }

  lemma {:induction false} FlattenPermuted<T>(ss: seq<seq<T>>, ts: seq<seq<T>>)
    requires multiset(ss) == multiset(ts)
    ensures multiset(Flatten(ss)) == multiset(Flatten(ts))
    decreases |ss|
  {
    if ss == [] {
      assert |ts| == |multiset(ts)| == |multiset(ss)|;
    } else {
      var k := TakeOut(ss, ts);
      FlattenPermuted(ss[..|ss| - 1], ts[..k] + ts[k + 1..]);
      FlattenSplit(ts, k);
    }
  }

  lemma {:induction false} FlattenEach<T>(ss: seq<seq<T>>, ts: seq<seq<T>>)
    requires |ss| == |ts| && forall k :: 0 <= k < |ss| ==> multiset(ss[k]) == multiset(ts[k])
    ensures multiset(Flatten(ss)) == multiset(Flatten(ts))
  {
    if ss != [] {
      FlattenEach(ss[..|ss| - 1], ts[..|ts| - 1]);
    }
  }

  lemma JoinedConserves<K(!new)>(gs: seq<Batch<K>>, k: K, x: nat)
    ensures multiset(Flatten(Members(Joined(gs, k, x)))) == multiset(Flatten(Members(gs))) + multiset{x}
  {
    match FirstPosition(gs, Keyed(k)) {
      case Some(a) =>
        assert Members(Joined(gs, k, x)) == Members(gs)[a := Members(gs)[a] + [x]];
        OneMoreAt(Members(gs), a, x);
      case None =>
        assert Members(Joined(gs, k, x)) == Members(gs) + [[x]];
    }
  }

  lemma OneMoreAt(parts: seq<seq<nat>>, a: nat, x: nat)
    requires a < |parts|
    ensures multiset(Flatten(parts[a := parts[a] + [x]])) == multiset(Flatten(parts)) + multiset{x}
  {
    var more := parts[a := parts[a] + [x]];
    FlattenSplit(parts, a);
    FlattenSplit(more, a);
    assert more[..a] == parts[..a] && more[a + 1..] == parts[a + 1..];
  }

  /** Everything the groups hold. */
  ghost function Held<K(!new)>(gs: seq<Batch<K>>): multiset<nat> {
    multiset(Flatten(Members(gs)))
  }

  lemma GroupsNext<K(!new)>(items: seq<nat>, key: nat -> K)
    requires items != []
    ensures Held(Groups(items, key)) == Held(Groups(items[..|items| - 1], key)) + multiset{items[|items| - 1]}
  {
    JoinedConserves(Groups(items[..|items| - 1], key), key(items[|items| - 1]), items[|items| - 1]);
  }

  /** Groups hold every item once. */
  lemma {:induction false} GroupsConserve<K(!new)>(items: seq<nat>, key: nat -> K)
    ensures Held(Groups(items, key)) == multiset(items)
  {
    if items == [] {
      NoMembers(Groups(items, key));
    } else {
      GroupsConserve(items[..|items| - 1], key);
      GroupsNext(items, key);
      assert items == items[..|items| - 1] + [items[|items| - 1]];
    }
  }

  lemma NoMembers<K(!new)>(gs: seq<Batch<K>>)
    requires gs == []
    ensures Held(gs) == multiset{}
  {
  }

  function Mapped<S, T>(s: seq<S>, f: S -> T): (r: seq<T>)
    ensures |r| == |s| && forall k :: 0 <= k < |s| ==> r[k] == f(s[k])
  {
    seq(|s|, k requires 0 <= k < |s| => f(s[k]))
  }

  lemma MappedWithout<S, T>(s: seq<S>, f: S -> T, k: nat)
    requires k < |s|
    ensures multiset(Mapped(s, f)) == multiset(Mapped(s[..k] + s[k + 1..], f)) + multiset{f(s[k])}
  {
    var r := Mapped(s, f);
    assert r == r[..k] + [f(s[k])] + r[k + 1..];
    assert Mapped(s[..k] + s[k + 1..], f) == r[..k] + r[k + 1..];
  }

  lemma {:induction false} MappedPermuted<S, T>(a: seq<S>, b: seq<S>, f: S -> T)
    requires multiset(a) == multiset(b)
    ensures multiset(Mapped(a, f)) == multiset(Mapped(b, f))
    decreases |a|
  {
    if a == [] {
      assert |b| == |multiset(b)| == |multiset(a)|;
    } else {
      var n := |a| - 1;
      var k := TakeOut(a, b);
      MappedPermuted(a[..n], b[..k] + b[k + 1..], f);
      assert a[..n] + a[n + 1..] == a[..n];
      MappedWithout(a, f, n);
      MappedWithout(b, f, k);
    }
  }

  function ItsMembers<K>(): Batch<K> -> seq<nat> {
    (g: Batch<K>) => g.1
  }

  lemma MembersPermuted<K(!new)>(gs: seq<Batch<K>>, hs: seq<Batch<K>>)
    requires multiset(gs) == multiset(hs)
    ensures multiset(Members(gs)) == multiset(Members(hs))
  {
    MappedPermuted(gs, hs, ItsMembers());
    assert Members(gs) == Mapped(gs, ItsMembers()) && Members(hs) == Mapped(hs, ItsMembers());
  }

  /** So do they sorted. */
  lemma SortedGroupsConserve<K(!new)>(items: seq<nat>, key: nat -> K, leq: (Batch<K>, Batch<K>) -> bool)
    ensures Held(StableSort(Groups(items, key), leq)) == multiset(items)
  {
    var gs := Groups(items, key);
    GroupsConserve(items, key);
    SortMultiset(gs, leq);
    MembersPermuted(StableSort(gs, leq), gs);
    FlattenPermuted(Members(StableSort(gs, leq)), Members(gs));
  }

  /** Filtering by a test and by its opposite splits a sequence. */
  lemma {:induction false} FilterSplits(s: seq<nat>, p: nat -> bool, q: nat -> bool)
    requires forall x :: x in s ==> (p(x) <==> !q(x))
    ensures multiset(Filter<nat>(s, p)) + multiset(Filter<nat>(s, q)) == multiset(s)
  {
    if s != [] {
      var rest, x := s[..|s| - 1], s[|s| - 1];
      assert s == rest + [x];
      FilterSplits(rest, p, q);
    }
  }

  function SumOf(s: seq<nat>, f: nat -> int): (r: int) {
    if s == [] then 0 else SumOf(s[..|s| - 1], f) + f(s[|s| - 1])
  }

  lemma {:induction false} SumOfAppend(s: seq<nat>, t: seq<nat>, f: nat -> int)
    ensures SumOf(s + t, f) == SumOf(s, f) + SumOf(t, f)
  {
    if t == [] {
      assert s + t == s;
    } else {
      assert (s + t)[..|s + t| - 1] == s + t[..|t| - 1];
      SumOfAppend(s, t[..|t| - 1], f);
    }
  }

  lemma {:induction false} SumOfPermuted(s: seq<nat>, t: seq<nat>, f: nat -> int)
    requires multiset(s) == multiset(t)
    ensures SumOf(s, f) == SumOf(t, f)
    decreases |s|
  {
    if s == [] {
      assert |t| == |multiset(t)| == |multiset(s)|;
    } else {
      var k := TakeOut(s, t);
      SumOfPermuted(s[..|s| - 1], t[..k] + t[k + 1..], f);
      SumOfAppend(t[..k], [t[k]] + t[k + 1..], f);
      SumOfAppend([t[k]], t[k + 1..], f);
      SumOfAppend(t[..k], t[k + 1..], f);
      assert t == t[..k] + ([t[k]] + t[k + 1..]);
      SumOfOne(t[k], f);
    }
  }

  lemma SumOfOne(x: nat, f: nat -> int)
    ensures SumOf([x], f) == f(x)
  {
    assert [x][..0] == [];
    assert SumOf([], f) == 0;
  }
}
