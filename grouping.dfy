/**
 * groupBy(grouper): one drive of the source buckets every value under
 * grouper(value), looking the key up by `===` in the list of keys seen so far;
 * then it yields one Group per key, in the order the keys were first seen.
 */
module Grouping {
  import opened Values
  import opened Protocol
  import Combinators

  /** A group: an array-backed Generator over its contents, with its `key` set. */
  datatype Group<K, T> = Group(key: K, contents: seq<T>)

  /** indexOf: the first position of x in xs, or -1. */
  function IndexOf<K(==)>(xs: seq<K>, x: K): (r: int)
    ensures -1 <= r < |xs|
    ensures r == -1 <==> x !in xs
    ensures r >= 0 ==> xs[r] == x && x !in xs[..r]
    decreases |xs|
  {
    if xs == [] then -1
    else if xs[0] == x then 0
    else
      var j := IndexOf(xs[1..], x);
      assert xs == [xs[0]] + xs[1..];
      if j == -1 then -1
      else
        assert xs[..j + 1] == [xs[0]] + xs[1..][..j];
        j + 1
  }

  function Keys<K, T>(gs: seq<Group<K, T>>): (r: seq<K>)
    ensures |r| == |gs| && forall j :: 0 <= j < |gs| ==> r[j] == gs[j].key
    decreases |gs|
  {
    if gs == [] then [] else [gs[0].key] + Keys(gs[1..])
  }

  function Flatten<K, T>(gs: seq<Group<K, T>>): seq<T>
    decreases |gs|
  {
    if gs == [] then [] else gs[0].contents + Flatten(gs[1..])
  }

  /** The distinct elements of xs, each where it first occurs. */
  function Dedup<K(==)>(xs: seq<K>): seq<K>
    decreases |xs|
  {
    if xs == [] then []
    else
      var d := Dedup(xs[..|xs| - 1]);
      if xs[|xs| - 1] in d then d else d + [xs[|xs| - 1]]
  }

  /** The values of s whose key is k, in source order. */
  function KeyFilter<K(==), T>(s: seq<T>, key: T -> K, k: K): seq<T>
    decreases |s|
  {
    if s == [] then []
    else KeyFilter(s[..|s| - 1], key, k) + (if key(s[|s| - 1]) == k then [s[|s| - 1]] else [])
  }

  // ---------------------------------------------------------------- facts about the reference definitions

  lemma {:induction false} IndexOfAppend<K>(xs: seq<K>, x: K, y: K)
    requires y in xs
    ensures IndexOf(xs + [x], y) == IndexOf(xs, y)
    decreases |xs|
  {
    if xs[0] != y {
      assert (xs + [x])[1..] == xs[1..] + [x];
      assert xs == [xs[0]] + xs[1..];
      IndexOfAppend(xs[1..], x, y);
    }
  }

  /** Dedup keeps every element, and nothing else. */
  lemma {:induction false} DedupMembers<K>(xs: seq<K>)
    ensures forall x :: x in Dedup(xs) <==> x in xs
    decreases |xs|
  {
    if xs != [] {
      var init := xs[..|xs| - 1];
      assert xs == init + [xs[|xs| - 1]];
      DedupMembers(init);
    }
  }

  lemma DedupMember<K>(xs: seq<K>, y: K)
    requires y in Dedup(xs)
    ensures y in xs
  {
    DedupMembers(xs);
  }

  lemma DedupKeeps<K>(xs: seq<K>, y: K)
    requires y in xs
    ensures y in Dedup(xs)
  {
    DedupMembers(xs);
  }

  /** Dedup keeps each element once, and nothing else, in order of first occurrence. */
  lemma {:induction false} DedupSpec<K>(xs: seq<K>)
    ensures forall x :: x in Dedup(xs) <==> x in xs
    ensures forall i, j :: 0 <= i < j < |Dedup(xs)| ==> Dedup(xs)[i] != Dedup(xs)[j]
    ensures forall i, j :: 0 <= i < j < |Dedup(xs)| ==>
      IndexOf(xs, Dedup(xs)[i]) < IndexOf(xs, Dedup(xs)[j])
  {
    DedupMembers(xs);
    DedupDistinct(xs);
    DedupOrdered(xs);
  }

  lemma {:induction false} DedupDistinct<K>(xs: seq<K>)
    ensures forall i, j :: 0 <= i < j < |Dedup(xs)| ==> Dedup(xs)[i] != Dedup(xs)[j]
    decreases |xs|
  {
    if xs != [] {
      var init := xs[..|xs| - 1];
      var last := xs[|xs| - 1];
      DedupDistinct(init);
      var d := Dedup(init);
      if last !in d {
        forall i, j | 0 <= i < j < |d + [last]|
          ensures (d + [last])[i] != (d + [last])[j]
        {
          if j == |d| {
            assert (d + [last])[i] == d[i];
          } else {
            assert (d + [last])[i] == d[i] && (d + [last])[j] == d[j];
          }
        }
      }
    }
  }

  lemma {:induction false} DedupOrdered<K>(xs: seq<K>)
    ensures forall i, j :: 0 <= i < j < |Dedup(xs)| ==>
      IndexOf(xs, Dedup(xs)[i]) < IndexOf(xs, Dedup(xs)[j])
    decreases |xs|
  {
    if xs != [] {
      var init := xs[..|xs| - 1];
      var last := xs[|xs| - 1];
      assert xs == init + [last];
      DedupOrdered(init);
      var d := Dedup(init);
      var r := Dedup(xs);
      forall i, j | 0 <= i < j < |r|
        ensures IndexOf(xs, r[i]) < IndexOf(xs, r[j])
      {
        assert r[i] == d[i];
        DedupShift(init, last, d[i]);
        if j < |d| {
          assert r[j] == d[j];
          DedupShift(init, last, d[j]);
        } else {
          DedupLast(init, last);
        }
      }
    }
  }

  /** An element kept before `last` keeps its first position, which lies inside init. */
  lemma DedupShift<K>(init: seq<K>, last: K, y: K)
    requires y in Dedup(init)
    ensures IndexOf(init + [last], y) == IndexOf(init, y) < |init|
  {
    DedupMember(init, y);
    IndexOfAppend(init, last, y);
  }

  /** A new last element first occurs at the end. */
  lemma DedupLast<K>(init: seq<K>, last: K)
    requires last !in Dedup(init)
    ensures IndexOf(init + [last], last) == |init|
  {
    DedupMembers(init);
    var xs := init + [last];
    assert xs[|init|] == last;
    assert xs[..|init|] == init;
  }

  lemma {:induction false} KeyFilterMembers<K, T>(s: seq<T>, key: T -> K, k: K, x: T)
    ensures x in KeyFilter(s, key, k) <==> x in s && key(x) == k
    decreases |s|
  {
    if s != [] {
      KeyFilterMembers(s[..|s| - 1], key, k, x);
      assert s == s[..|s| - 1] + [s[|s| - 1]];
    }
  }

  lemma KeyFilterAppend<K, T>(s: seq<T>, key: T -> K, k: K, v: T)
    ensures KeyFilter(s + [v], key, k) == KeyFilter(s, key, k) + (if key(v) == k then [v] else [])
  {
    assert (s + [v])[..|s + [v]| - 1] == s;
  }

  lemma {:induction false} FlattenAppend<K, T>(gs: seq<Group<K, T>>, g: Group<K, T>)
    ensures Flatten(gs + [g]) == Flatten(gs) + g.contents
    decreases |gs|
  {
    if gs == [] {
      assert [g][1..] == [];
      assert g.contents + [] == g.contents;
    } else {
      assert (gs + [g])[1..] == gs[1..] + [g];
      FlattenAppend(gs[1..], g);
    }
  }

  lemma {:induction false} FlattenUpdate<K, T>(gs: seq<Group<K, T>>, i: nat, v: T)
    requires i < |gs|
    ensures multiset(Flatten(gs[i := Group(gs[i].key, gs[i].contents + [v])])) ==
      multiset(Flatten(gs)) + multiset{v}
    decreases |gs|
  {
    var g := Group(gs[i].key, gs[i].contents + [v]);
    if i == 0 {
      FlattenUpdateHead(gs, v);
    } else {
      FlattenUpdate(gs[1..], i - 1, v);
      FlattenUpdateTail(gs, i, g, multiset(Flatten(gs[1..])) + multiset{v});
    }
  }

  lemma FlattenUpdateHead<K, T>(gs: seq<Group<K, T>>, v: T)
    requires gs != []
    ensures multiset(Flatten(gs[0 := Group(gs[0].key, gs[0].contents + [v])])) ==
      multiset(Flatten(gs)) + multiset{v}
  {
    var gs' := gs[0 := Group(gs[0].key, gs[0].contents + [v])];
    assert gs'[1..] == gs[1..];
    FlattenCons(gs);
    FlattenCons(gs');
  }

  lemma FlattenUpdateTail<K, T>(gs: seq<Group<K, T>>, i: nat, g: Group<K, T>, m: multiset<T>)
    requires 0 < i < |gs|
    requires multiset(Flatten(gs[1..][i - 1 := g])) == m
    ensures multiset(Flatten(gs[i := g])) == multiset(gs[0].contents) + m
  {
    assert gs[i := g][1..] == gs[1..][i - 1 := g];
    assert gs[i := g][0] == gs[0];
    FlattenCons(gs[i := g]);
  }

  lemma FlattenCons<K, T>(gs: seq<Group<K, T>>)
    requires gs != []
    ensures multiset(Flatten(gs)) == multiset(gs[0].contents) + multiset(Flatten(gs[1..]))
  {
  }

  // ---------------------------------------------------------------- the consumer and its invariant

  /** One value arrives: push it onto its key's group, or open a new group for a new key. */
  function AddTo<K(==), T>(gs: seq<Group<K, T>>, k: K, v: T): seq<Group<K, T>>
  {
    var i := IndexOf(Keys(gs), k);
    if i == -1 then gs + [Group(k, [v])]
    else gs[i := Group(k, gs[i].contents + [v])]
  }

  /** groupBy's consumer on its source's drive. */
  function GroupConsumer<K(==), T>(key: T -> K): Consumer<seq<Group<K, T>>, T>
  {
    (gs: seq<Group<K, T>>, v: T, i: nat) => (AddTo(gs, key(v), v), Normal)
  }

  /** What the groups built from the values `seen` are. */
  ghost predicate GroupsOf<K, T>(gs: seq<Group<K, T>>, seen: seq<T>, key: T -> K)
  {
    Keys(gs) == Dedup(Combinators.Map(seen, key)) &&
    ContentsOf(gs, seen, key) &&
    multiset(Flatten(gs)) == multiset(seen)
  }

  /** Every group holds exactly the values seen with its key, and at least one. */
  ghost predicate ContentsOf<K, T>(gs: seq<Group<K, T>>, seen: seq<T>, key: T -> K)
  {
    forall j :: 0 <= j < |gs| ==> gs[j].contents == KeyFilter(seen, key, gs[j].key) && gs[j].contents != []
  }

  lemma MapSnoc<T, K>(s: seq<T>, key: T -> K, v: T)
    ensures Combinators.Map(s + [v], key) == Combinators.Map(s, key) + [key(v)]
  {
  }

  lemma DedupSnoc<K>(ks: seq<K>, k: K)
    ensures Dedup(ks + [k]) == if k in Dedup(ks) then Dedup(ks) else Dedup(ks) + [k]
  {
    assert (ks + [k])[..|ks + [k]| - 1] == ks;
  }

  lemma KeysSnoc<K, T>(gs: seq<Group<K, T>>, g: Group<K, T>)
    ensures Keys(gs + [g]) == Keys(gs) + [g.key]
  {
  }

  lemma KeysUpdate<K, T>(gs: seq<Group<K, T>>, i: nat, g: Group<K, T>)
    requires i < |gs| && g.key == gs[i].key
    ensures Keys(gs[i := g]) == Keys(gs)
  {
  }

  lemma AddToKeys<K, T>(gs: seq<Group<K, T>>, ks: seq<K>, k: K, v: T)
    requires Keys(gs) == Dedup(ks)
    ensures Keys(AddTo(gs, k, v)) == Dedup(ks + [k])
  {
    DedupSnoc(ks, k);
    var i := IndexOf(Keys(gs), k);
    if i == -1 {
      KeysSnoc(gs, Group(k, [v]));
    } else {
      KeysUpdate(gs, i, Group(k, gs[i].contents + [v]));
    }
  }

  lemma AddToFlatten<K, T>(gs: seq<Group<K, T>>, k: K, v: T)
    ensures multiset(Flatten(AddTo(gs, k, v))) == multiset(Flatten(gs)) + multiset{v}
  {
    var i := IndexOf(Keys(gs), k);
    if i == -1 {
      FlattenAppend(gs, Group(k, [v]));
    } else {
      FlattenUpdate(gs, i, v);
    }
  }

  lemma KeyFilterAbsent<K, T>(seen: seq<T>, key: T -> K, k: K)
    requires k !in Combinators.Map(seen, key)
    ensures KeyFilter(seen, key, k) == []
  {
    if KeyFilter(seen, key, k) != [] {
      var x := KeyFilter(seen, key, k)[0];
      KeyFilterMembers(seen, key, k, x);
    }
  }

  lemma AddToContents<K, T>(gs: seq<Group<K, T>>, seen: seq<T>, key: T -> K, v: T)
    requires Keys(gs) == Dedup(Combinators.Map(seen, key))
    requires ContentsOf(gs, seen, key)
    ensures ContentsOf(AddTo(gs, key(v), v), seen + [v], key)
  {
    var k := key(v);
    DedupSpec(Combinators.Map(seen, key));
    var gs' := AddTo(gs, k, v);
    var i := IndexOf(Keys(gs), k);
    forall j | 0 <= j < |gs'|
      ensures gs'[j].contents == KeyFilter(seen + [v], key, gs'[j].key) && gs'[j].contents != []
    {
      KeyFilterAppend(seen, key, gs'[j].key, v);
      if j < |gs| && j != i {
        assert gs'[j] == gs[j];
        assert Keys(gs)[j] != k;
      } else if j == |gs| {
        KeyFilterAbsent(seen, key, k);
      }
    }
  }

  lemma AddToKeeps<K, T>(gs: seq<Group<K, T>>, seen: seq<T>, key: T -> K, v: T)
    requires GroupsOf(gs, seen, key)
    ensures GroupsOf(AddTo(gs, key(v), v), seen + [v], key)
  {
    MapSnoc(seen, key, v);
    AddToKeys(gs, Combinators.Map(seen, key), key(v), v);
    AddToContents(gs, seen, key, v);
    AddToFlatten(gs, key(v), v);
  }

  /** Where x sits in s. */
  ghost function IndexOfSeq<T>(s: seq<T>, x: T): (r: nat)
    requires x in s
    ensures r < |s| && s[r] == x
  {
    var r :| 0 <= r < |s| && s[r] == x; r
  }

  /** One value fed to groupBy's consumer adds it to its group. */
  lemma FeedGroupsStep<K, T>(s: seq<T>, key: T -> K, gs: seq<Group<K, T>>, i: nat)
    requires s != []
    ensures Feed(s, GroupConsumer(key), gs, i) == Feed(s[1..], GroupConsumer(key), AddTo(gs, key(s[0]), s[0]), i + 1)
  {
    FeedNormalStep(s, GroupConsumer(key), gs, i, AddTo(gs, key(s[0]), s[0]));
  }

  lemma SnocHead<T>(a: seq<T>, s: seq<T>)
    requires s != []
    ensures a + [s[0]] + s[1..] == a + s
  {
    assert s == [s[0]] + s[1..];
  }

  lemma GroupsOfTransfer<K, T>(gs: seq<Group<K, T>>, a: seq<T>, b: seq<T>, key: T -> K)
    requires GroupsOf(gs, a, key) && a == b
    ensures GroupsOf(gs, b, key)
  {
  }

  lemma {:induction false} FeedGroups<K, T>(s: seq<T>, key: T -> K, gs: seq<Group<K, T>>, seen: seq<T>, i: nat)
    requires GroupsOf(gs, seen, key)
    ensures GroupsOf(Feed(s, GroupConsumer(key), gs, i).state, seen + s, key)
    decreases |s|
  {
    if s == [] {
      assert seen + s == seen;
    } else {
      var gs' := AddTo(gs, key(s[0]), s[0]);
      AddToKeeps(gs, seen, key, s[0]);
      FeedGroups(s[1..], key, gs', seen + [s[0]], i + 1);
      FeedGroupsStep(s, key, gs, i);
      SnocHead(seen, s);
      GroupsOfTransfer(Feed(s, GroupConsumer(key), gs, i).state, seen + [s[0]] + s[1..], seen + s, key);
    }
  }

  /**
   * groupBy(grouper) driven to the end: the group keys are pairwise distinct and
   * in order of first occurrence; each group holds exactly the values with its
   * key, in source order; together the groups are a permutation of the source.
   */
  method GroupBy<K(==), T>(s: seq<T>, key: T -> K) returns (groups: seq<Group<K, T>>)
    ensures Keys(groups) == Dedup(Combinators.Map(s, key))
    ensures forall i, j :: 0 <= i < j < |groups| ==> groups[i].key != groups[j].key
    ensures forall i, j :: 0 <= i < j < |groups| ==>
      IndexOf(Combinators.Map(s, key), groups[i].key) < IndexOf(Combinators.Map(s, key), groups[j].key)
    ensures forall j :: 0 <= j < |groups| ==>
      groups[j].contents == KeyFilter(s, key, groups[j].key) && groups[j].contents != []
    ensures forall x :: x in s ==> key(x) in Keys(groups)
    ensures multiset(Flatten(groups)) == multiset(s)
  {
    var built, c := DriveValues(s, GroupConsumer(key), []);
    assert GroupsOf([], [], key) by {
      assert Combinators.Map([], key) == [];
    }
    FeedGroups(s, key, [], [], 0);
    assert [] + s == s;
    // new Generator(groups).zipWithArray(group_contents, ...) pairs each key with its contents
    var keys := Keys(built);
    var contents := Combinators.Map(built, (g: Group<K, T>) => g.contents);
    groups := Combinators.ZipWithArray(keys, contents, (k: K, c: seq<T>) => Group(k, c));
    ZipRebuilds(built, groups);
    GroupsOfFacts(groups, s, key);
  }

  /** Zipping the keys with the contents lists gives back the groups. */
  lemma ZipRebuilds<K, T>(built: seq<Group<K, T>>, groups: seq<Group<K, T>>)
    requires groups == Combinators.ZipWithArray(Keys(built),
      Combinators.Map(built, (g: Group<K, T>) => g.contents), (k: K, c: seq<T>) => Group(k, c))
    ensures groups == built
  {
  }

  /** What GroupsOf says about the groups' keys, spelt out. */
  lemma GroupsOfFacts<K, T>(groups: seq<Group<K, T>>, s: seq<T>, key: T -> K)
    requires Keys(groups) == Dedup(Combinators.Map(s, key))
    ensures forall i, j :: 0 <= i < j < |groups| ==> groups[i].key != groups[j].key
    ensures forall i, j :: 0 <= i < j < |groups| ==>
      IndexOf(Combinators.Map(s, key), groups[i].key) < IndexOf(Combinators.Map(s, key), groups[j].key)
    ensures forall x :: x in s ==> key(x) in Keys(groups)
  {
    DedupSpec(Combinators.Map(s, key));
    forall x | x in s ensures key(x) in Keys(groups) {
      assert Combinators.Map(s, key)[IndexOfSeq(s, x)] == key(x);
      DedupKeeps(Combinators.Map(s, key), key(x));
    }
  }
}
