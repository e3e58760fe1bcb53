/** Where the diff of a staged patch lists changes: exactly at the places where the two values first part,
    each with what stands there before and after, in the order in which objects and arrays are read. */
module DiffPlaces {
  import opened Wrappers
  import opened Json
  import opened Pointers
  import opened Projects
  import opened Diff

  /** What stands at a path, if anything. */
  function ValueAt(v: Option<Json>, path: seq<string>): Option<Json>
    decreases |path|
  {
    if path == [] then v
    else match v
      case Some(Object(m)) => ValueAt(Get(m, path[0]), path[1..])
      case Some(Array(s)) =>
        var i := IndexOf(path[0]);
        if i.Some? && Decimal(i.value) == path[0] then ValueAt(Item(s, i.value), path[1..]) else None
      case _ => None
  }

  /** Two objects, or two arrays. */
  predicate SameKind(before: Option<Json>, after: Option<Json>) {
    && before.Some? && after.Some?
    && ((before.value.Object? && after.value.Object?) || (before.value.Array? && after.value.Array?))
  }

  /** The values differ here, and as a whole, but everything above is an object or an array on both sides. */
  predicate PartAt(before: Option<Json>, after: Option<Json>, path: seq<string>) {
    && ValueAt(before, path) != ValueAt(after, path)
    && !SameKind(ValueAt(before, path), ValueAt(after, path))
    && forall n: nat | n < |path| :: SameKind(ValueAt(before, path[..n]), ValueAt(after, path[..n]))
  }

  /** What both sides have at a key or an index. */
  function Child(v: Option<Json>, key: string): Option<Json> {
    ValueAt(v, [key])
  }

  lemma ValueBelow(v: Option<Json>, key: string, path: seq<string>)
    ensures ValueAt(v, [key] + path) == ValueAt(Child(v, key), path)
  {
    assert ([key] + path)[1..] == path && ([key] + path)[0] == key && [key][1..] == [];
    NothingInside(path);
    match v {
      case Some(Object(m)) => assert Child(v, key) == ValueAt(Get(m, key), []);
      case Some(Array(s)) =>
        var i := IndexOf(key);
        if i.Some? && Decimal(i.value) == key {
          assert Child(v, key) == ValueAt(Item(s, i.value), []);
        }
      case _ =>
    }
  }

  lemma NothingInside(path: seq<string>)
    ensures ValueAt(None, path) == None
  {
  }

  lemma PartBelow(before: Option<Json>, after: Option<Json>, key: string, path: seq<string>)
    requires SameKind(before, after)
    ensures PartAt(before, after, [key] + path) <==> PartAt(Child(before, key), Child(after, key), path)
  {
    var whole := [key] + path;
    ValueBelow(before, key, path);
    ValueBelow(after, key, path);
    forall n: nat | n < |path|
      ensures whole[..n + 1] == [key] + path[..n]
      ensures ValueAt(before, whole[..n + 1]) == ValueAt(Child(before, key), path[..n])
      ensures ValueAt(after, whole[..n + 1]) == ValueAt(Child(after, key), path[..n])
    {
      assert whole[..n + 1] == [key] + path[..n];
      ValueBelow(before, key, path[..n]);
      ValueBelow(after, key, path[..n]);
    }
    assert whole[..0] == [];
    hide ValueAt, SameKind, Child;
    if PartAt(Child(before, key), Child(after, key), path) {
      forall n: nat | n < |whole|
        ensures SameKind(ValueAt(before, whole[..n]), ValueAt(after, whole[..n]))
      {
        if n > 0 {
          assert SameKind(ValueAt(Child(before, key), path[..n - 1]), ValueAt(Child(after, key), path[..n - 1]));
        }
      }
    }
    if PartAt(before, after, whole) {
      forall n: nat | n < |path|
        ensures SameKind(ValueAt(Child(before, key), path[..n]), ValueAt(Child(after, key), path[..n]))
      {
        assert SameKind(ValueAt(before, whole[..n + 1]), ValueAt(after, whole[..n + 1]));
      }
    }
  }

  lemma ChildOf(before: Option<Json>, key: string)
    ensures before.Some? && before.value.Object? ==> Child(before, key) == Get(before.value.members, key)
    ensures before.Some? && before.value.Array? ==>
              forall i: nat | key == Decimal(i) :: Child(before, key) == Item(before.value.items, i)
    ensures before.Some? && before.value.Array? && (forall i: nat :: key != Decimal(i)) ==> Child(before, key) == None
  {
    assert [key][1..] == [];
    if before.Some? && before.value.Array? {
      forall i: nat | key == Decimal(i)
        ensures Child(before, key) == Item(before.value.items, i)
      {
        IndexOfDecimal(i);
        assert Child(before, key) == ValueAt(Item(before.value.items, i), []);
      }
    } else if before.Some? && before.value.Object? {
      assert Child(before, key) == ValueAt(Get(before.value.members, key), []);
    }
  }

  /** This change is listed, one level further down. */
  ghost predicate ListedBelow(before: Option<Json>, after: Option<Json>, c: Change) {
    && c.path != []
    && Change(c.path[1..], c.before, c.after) in Changes([], Child(before, c.path[0]), Child(after, c.path[0]))
  }

  lemma {:induction false} InUnder(key: string, cs: seq<Change>, c: Change)
    ensures c in Under(key, cs) <==>
              c.path != [] && c.path[0] == key && Change(c.path[1..], c.before, c.after) in cs
  {
    if cs != [] {
      InUnder(key, cs[1..], c);
      var moved := Change([key] + cs[0].path, cs[0].before, cs[0].after);
      assert moved.path[1..] == cs[0].path;
      assert c.path != [] ==> c.path == [c.path[0]] + c.path[1..];
      assert cs == [cs[0]] + cs[1..];
      assert c in Under(key, cs) <==> c == moved || c in Under(key, cs[1..]);
    }
  }

  lemma {:induction false} MemberListed(keys: seq<string>, before: Json, after: Json, c: Change)
    requires before.Object? && after.Object?
    ensures c in MemberChanges([], keys, before, after) <==>
              c.path != [] && c.path[0] in keys && ListedBelow(Some(before), Some(after), c)
    decreases |keys|
  {
    if keys != [] {
      var k := keys[0];
      MemberListed(keys[1..], before, after, c);
      assert [] + [k] == [k] + [];
      ChangesUnder(k, [], Get(before.members, k), Get(after.members, k));
      InUnder(k, Changes([], Get(before.members, k), Get(after.members, k)), c);
      ChildOf(Some(before), k);
      ChildOf(Some(after), k);
      hide Changes, Child, Under;
      assert c in MemberChanges([], keys, before, after) <==>
        c in Under(k, Changes([], Get(before.members, k), Get(after.members, k)))
        || c in MemberChanges([], keys[1..], before, after);
    }
  }

  predicate IsIndex(key: string, from: nat, end: nat) {
    exists i: nat :: from <= i < end && key == Decimal(i)
  }

  lemma IsIndexFrom(key: string, from: nat, end: nat)
    requires from < end
    ensures IsIndex(key, from, end) <==> key == Decimal(from) || IsIndex(key, from + 1, end)
  {
    hide Decimal;
    if i: nat :| from <= i < end && key == Decimal(i) {
      assert i == from || from + 1 <= i;
    }
  }

  lemma {:induction false} ItemListed(from: nat, before: Json, after: Json, c: Change)
    requires before.Array? && after.Array? && from <= Max(|before.items|, |after.items|)
    ensures c in ItemChanges([], from, before, after) <==>
              && c.path != [] && IsIndex(c.path[0], from, Max(|before.items|, |after.items|))
              && ListedBelow(Some(before), Some(after), c)
    decreases Max(|before.items|, |after.items|) - from
  {
    if from < Max(|before.items|, |after.items|) {
      var k := Decimal(from);
      ItemListed(from + 1, before, after, c);
      assert [] + [k] == [k] + [];
      ChangesUnder(k, [], Item(before.items, from), Item(after.items, from));
      InUnder(k, Changes([], Item(before.items, from), Item(after.items, from)), c);
      ChildOf(Some(before), k);
      ChildOf(Some(after), k);
      if c.path != [] {
        IsIndexFrom(c.path[0], from, Max(|before.items|, |after.items|));
      }
      hide Changes, Child, Under, Decimal, IsIndex;
      assert c in ItemChanges([], from, before, after) <==>
        c in Under(k, Changes([], Item(before.items, from), Item(after.items, from)))
        || c in ItemChanges([], from + 1, before, after);
    }
  }

  /** The change belongs here. */
  ghost predicate Parted(before: Option<Json>, after: Option<Json>, c: Change) {
    PartAt(before, after, c.path) && c.before == ValueAt(before, c.path) && c.after == ValueAt(after, c.path)
  }

  lemma PartedBelow(before: Option<Json>, after: Option<Json>, c: Change)
    requires SameKind(before, after)
    ensures Parted(before, after, c) <==>
              && c.path != []
              && Parted(Child(before, c.path[0]), Child(after, c.path[0]), Change(c.path[1..], c.before, c.after))
  {
    if c.path != [] {
      var key, rest := c.path[0], c.path[1..];
      assert c.path == [key] + rest;
      PartBelow(before, after, key, rest);
      ValueBelow(before, key, rest);
      ValueBelow(after, key, rest);
      hide PartAt, ValueAt, Child;
    }
  }

  lemma PartedHere(before: Option<Json>, after: Option<Json>, c: Change)
    requires !SameKind(before, after)
    ensures Parted(before, after, c) <==> before != after && c == Change([], before, after)
  {
    if c.path != [] {
      assert c.path[..0] == [];
      assert !SameKind(ValueAt(before, c.path[..0]), ValueAt(after, c.path[..0]));
    }
  }

  lemma EqualNeverParts(v: Option<Json>, c: Change)
    ensures !Parted(v, v, c)
  {
  }

  lemma ListedInside(before: Option<Json>, after: Option<Json>, c: Change)
    requires SameKind(before, after) && before != after
    ensures c in Changes([], before, after) <==> ListedBelow(before, after, c)
  {
    if before.value.Object? {
      var keys := before.value.members.Keys + after.value.members.Keys;
      MemberListed(SortedKeys(keys), before.value, after.value, c);
      SortedKeysAreSorted(keys);
    } else {
      ItemListed(0, before.value, after.value, c);
    }
    if c.path != [] && Child(before, c.path[0]) != Child(after, c.path[0]) {
      OnlyKnownKeys(before, after, c.path[0]);
    }
    hide Child, MemberChanges, ItemChanges;
  }

  /** Nothing stands at a key or an index that neither side has. */
  lemma OnlyKnownKeys(before: Option<Json>, after: Option<Json>, key: string)
    requires SameKind(before, after) && Child(before, key) != Child(after, key)
    ensures before.value.Object? ==> key in before.value.members.Keys + after.value.members.Keys
    ensures before.value.Array? ==> IsIndex(key, 0, Max(|before.value.items|, |after.value.items|))
  {
    ChildOf(before, key);
    ChildOf(after, key);
    hide Child, Decimal;
  }

  /** The diff lists exactly the places where the two values first part, each with what stands there. */
  lemma {:induction false} ChangesExactly(before: Option<Json>, after: Option<Json>, c: Change)
    ensures c in Changes([], before, after) <==>
              PartAt(before, after, c.path) && c.before == ValueAt(before, c.path) && c.after == ValueAt(after, c.path)
    decreases |c.path|
  {
    EqualNeverParts(before, c);
    if before != after && SameKind(before, after) {
      PartedBelow(before, after, c);
      ListedInside(before, after, c);
      if c.path != [] {
        ChangesExactly(Child(before, c.path[0]), Child(after, c.path[0]), Change(c.path[1..], c.before, c.after));
      }
      hide Changes, PartAt, ValueAt;
    } else if before != after {
      PartedHere(before, after, c);
    }
  }

  /** No listed change could be split further: its sides differ, and are neither two objects nor two arrays. */
  lemma {:induction false} ChangesAreLeaves(path: seq<string>, before: Option<Json>, after: Option<Json>)
    ensures forall c | c in Changes(path, before, after) :: c.before != c.after && !SameKind(c.before, c.after)
    decreases |path|
  {
    forall c | c in Changes(path, before, after)
      ensures c.before != c.after && !SameKind(c.before, c.after)
    {
      if path == [] {
        ChangesExactly(before, after, c);
      } else {
        assert path == [path[0]] + path[1..];
        ChangesUnder(path[0], path[1..], before, after);
        InUnder(path[0], Changes(path[1..], before, after), c);
        ChangesAreLeaves(path[1..], before, after);
        hide Changes;
        var inner := Change(c.path[1..], c.before, c.after);
        assert inner.before != inner.after && !SameKind(inner.before, inner.after);
      }
    }
  }

  // ---- the changes of a patch ----

  lemma PatchDiffExactly(base: EditableProject, candidate: EditableProject, patch: ProjectPatch, c: Change)
    ensures var b, a := Some(ToValue(base)), Some(ToValue(candidate));
            c in PatchDiff(base, candidate, patch) <==>
              c.path != [] && c.path[0] in Roots(patch) && Parted(b, a, c)
  {
    hide Members, Roots, Changes, Child, PartAt, ValueAt;
    var b, a := ToValue(base), ToValue(candidate);
    MemberListed(Roots(patch), b, a, c);
    PartedBelow(Some(b), Some(a), c);
    if c.path != [] {
      ChangesExactly(Child(Some(b), c.path[0]), Child(Some(a), c.path[0]), Change(c.path[1..], c.before, c.after));
    }
  }

  /** The changes shown for a patch are exactly the places where the stored project and the candidate
      first part, each with what stands there before and after. */
  lemma ListedChangesExactly(base: EditableProject, patch: ProjectPatch, c: Change)
    ensures var candidate := Apply(patch, base);
            var b, a := Some(ToValue(base)), Some(ToValue(candidate));
            c in Parsed(Rendered(PatchDiff(base, candidate, patch))) <==>
              PartAt(b, a, c.path) && c.before == ValueAt(b, c.path) && c.after == ValueAt(a, c.path)
  {
    hide Members, Roots, Apply, PatchDiff, Child, PartAt, ValueAt;
    var candidate := Apply(patch, base);
    var b, a := ToValue(base), ToValue(candidate);
    ParsedRendered(PatchDiff(base, candidate, patch));
    PatchDiffExactly(base, candidate, patch, c);
    PartedBelow(Some(b), Some(a), c);
    if c.path != [] {
      UnnamedMembersAreKept(base, patch);
      ChildOf(Some(b), c.path[0]);
      ChildOf(Some(a), c.path[0]);
      EqualNeverParts(Child(Some(b), c.path[0]), Change(c.path[1..], c.before, c.after));
    }
  }

  // ---- their order ----

  /** Where the two paths part, members go by key and items by index. */
  predicate Precedes(v: Option<Json>, p: seq<string>, q: seq<string>)
    decreases |p|
  {
    && p != [] && q != []
    && if p[0] == q[0] then Precedes(Child(v, p[0]), p[1..], q[1..])
       else match v
         case Some(Object(_)) => Less(p[0], q[0])
         case Some(Array(_)) =>
           IndexOf(p[0]).Some? && IndexOf(q[0]).Some? && IndexOf(p[0]).value < IndexOf(q[0]).value
         case _ => false
  }

  ghost predicate InOrder(v: Option<Json>, cs: seq<Change>) {
    forall i, j | 0 <= i < j < |cs| :: Precedes(v, cs[i].path, cs[j].path)
  }

  lemma {:induction false} UnderAt(key: string, cs: seq<Change>)
    ensures |Under(key, cs)| == |cs|
    ensures forall i | 0 <= i < |cs| :: Under(key, cs)[i].path == [key] + cs[i].path
  {
    if cs != [] {
      UnderAt(key, cs[1..]);
    }
  }

  lemma InOrderUnder(v: Option<Json>, key: string, cs: seq<Change>)
    requires InOrder(Child(v, key), cs)
    ensures InOrder(v, Under(key, cs))
  {
    UnderAt(key, cs);
    var moved := Under(key, cs);
    hide Child, Under;
    forall i, j | 0 <= i < j < |moved|
      ensures Precedes(v, moved[i].path, moved[j].path)
    {
      assert moved[i].path[1..] == cs[i].path && moved[j].path[1..] == cs[j].path;
      assert Precedes(Child(v, key), cs[i].path, cs[j].path);
    }
  }

  lemma InOrderAppends(v: Option<Json>, a: seq<Change>, b: seq<Change>)
    requires InOrder(v, a) && InOrder(v, b) && forall c, d | c in a && d in b :: Precedes(v, c.path, d.path)
    ensures InOrder(v, a + b)
  {
    hide Precedes;
    forall i, j | 0 <= i < j < |a + b|
      ensures Precedes(v, (a + b)[i].path, (a + b)[j].path)
    {
      if j < |a| {
        assert (a + b)[i] == a[i] && (a + b)[j] == a[j];
      } else if i < |a| {
        assert (a + b)[i] in a && (a + b)[j] == b[j - |a|] && (a + b)[j] in b;
      } else {
        assert (a + b)[i] == b[i - |a|] && (a + b)[j] == b[j - |a|];
      }
    }
  }

  /** Members are listed in key order and items by index, at every level. */
  lemma {:induction false} ChangesAreInOrder(before: Option<Json>, after: Option<Json>)
    ensures InOrder(before, Changes([], before, after))
    decreases Tag(before), Inner(before), 1, 0
  {
    if before != after && SameKind(before, after) {
      if before.value.Object? {
        SortedKeysAreSorted(before.value.members.Keys + after.value.members.Keys);
        SortedKeysAreAllDistinct(before.value.members.Keys + after.value.members.Keys);
        MembersAreInOrder(SortedKeys(before.value.members.Keys + after.value.members.Keys), before.value, after.value);
      } else {
        ItemsAreInOrder(0, before.value, after.value);
      }
    }
  }

  lemma {:induction false} MembersAreInOrder(keys: seq<string>, before: Json, after: Json)
    requires before.Object? && after.Object?
    requires forall i, j | 0 <= i < j < |keys| :: Less(keys[i], keys[j]) && keys[i] != keys[j]
    ensures InOrder(Some(before), MemberChanges([], keys, before, after))
    decreases 1, before, 0, |keys|
  {
    if keys != [] {
      var k, rest := keys[0], keys[1..];
      var own, later := Changes([], Get(before.members, k), Get(after.members, k)),
        MemberChanges([], rest, before, after);
      ChangesAreInOrder(Get(before.members, k), Get(after.members, k));
      MembersAreInOrder(rest, before, after);
      ChildOf(Some(before), k);
      assert [] + [k] == [k] + [];
      ChangesUnder(k, [], Get(before.members, k), Get(after.members, k));
      InOrderUnder(Some(before), k, own);
      forall c, d | c in Under(k, own) && d in later
        ensures Precedes(Some(before), c.path, d.path)
      {
        InUnder(k, own, c);
        MemberListed(rest, before, after, d);
        hide Changes, Under, MemberChanges, ListedBelow;
        var j :| 0 <= j < |rest| && rest[j] == d.path[0];
        assert keys[j + 1] == rest[j];
      }
      hide Precedes, Changes, Under, InOrder;
      InOrderAppends(Some(before), Under(k, own), later);
    }
  }

  lemma {:induction false} ItemsAreInOrder(from: nat, before: Json, after: Json)
    requires before.Array? && after.Array? && from <= Max(|before.items|, |after.items|)
    ensures InOrder(Some(before), ItemChanges([], from, before, after))
    decreases 1, before, 0, Max(|before.items|, |after.items|) - from
  {
    if from < Max(|before.items|, |after.items|) {
      var k := Decimal(from);
      var own, later := Changes([], Item(before.items, from), Item(after.items, from)),
        ItemChanges([], from + 1, before, after);
      ChangesAreInOrder(Item(before.items, from), Item(after.items, from));
      ItemsAreInOrder(from + 1, before, after);
      ChildOf(Some(before), k);
      assert [] + [k] == [k] + [];
      ChangesUnder(k, [], Item(before.items, from), Item(after.items, from));
      InOrderUnder(Some(before), k, own);
      forall c, d | c in Under(k, own) && d in later
        ensures Precedes(Some(before), c.path, d.path)
      {
        InUnder(k, own, c);
        ItemListed(from + 1, before, after, d);
        hide Changes, Under, ItemChanges, ListedBelow;
        var i: nat :| from + 1 <= i < Max(|before.items|, |after.items|) && d.path[0] == Decimal(i);
        IndexOfDecimal(from);
        IndexOfDecimal(i);
      }
      hide Precedes, Changes, Under, InOrder, Decimal;
      InOrderAppends(Some(before), Under(k, own), later);
    }
  }
}
