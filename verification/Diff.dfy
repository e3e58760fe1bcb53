/** The structural diff of a staged patch: collect_changes and project_patch_changes in
    rust/src/assistant/tools.rs.

    The specification is the unbounded diff over key paths.  The methods below build the pointer
    text and push onto a bounded list as the source does, and are proved against it.  What the list
    means is given by replaying it. */
module Diff {
  import opened Wrappers
  import opened Json
  import opened Pointers
  import opened Projects

  const MAX_PROPOSAL_CHANGES: nat := 500

  /** One changed position: present or absent before, present or absent after. */
  datatype Change = Change(path: seq<string>, before: Option<Json>, after: Option<Json>)

  datatype PatchChange = PatchChange(pointer: string, before: Option<Json>, after: Option<Json>)

  function Max(a: nat, b: nat): nat {
    if a < b then b else a
  }

  // ---- the unbounded diff ----

  ghost function Tag(v: Option<Json>): nat {
    if v.Some? then 1 else 0
  }

  ghost function Inner(v: Option<Json>): Json {
    if v.Some? then v.value else Null
  }

  /** Objects and arrays are compared member by member, anything else changes as a whole. */
  ghost function Changes(path: seq<string>, before: Option<Json>, after: Option<Json>): seq<Change>
    decreases Tag(before), Inner(before), 1, 0
  {
    if before == after then []
    else if before.Some? && after.Some? && before.value.Object? && after.value.Object? then
      MemberChanges(path, SortedKeys(before.value.members.Keys + after.value.members.Keys), before.value, after.value)
    else if before.Some? && after.Some? && before.value.Array? && after.value.Array? then
      ItemChanges(path, 0, before.value, after.value)
    else [Change(path, before, after)]
  }

  ghost function MemberChanges(path: seq<string>, keys: seq<string>, before: Json, after: Json): seq<Change>
    requires before.Object? && after.Object?
    decreases 1, before, 0, |keys|
  {
    if keys == [] then [] else
      Changes(path + [keys[0]], Get(before.members, keys[0]), Get(after.members, keys[0]))
      + MemberChanges(path, keys[1..], before, after)
  }

  ghost function ItemChanges(path: seq<string>, from: nat, before: Json, after: Json): seq<Change>
    requires before.Array? && after.Array? && from <= Max(|before.items|, |after.items|)
    decreases 1, before, 0, Max(|before.items|, |after.items|) - from
  {
    if from == Max(|before.items|, |after.items|) then [] else
      Changes(path + [Decimal(from)], Item(before.items, from), Item(after.items, from))
      + ItemChanges(path, from + 1, before, after)
  }

  // ---- replay ----

  function Set(m: map<string, Json>, k: string, v: Option<Json>): map<string, Json> {
    if v.Some? then m[k := v.value] else m - {k}
  }

  /** Make the position hold the value, or hold nothing.  An array whose element i is absent has at
      most i elements; an element can be added right after the last one. */
  function Put(doc: Option<Json>, path: seq<string>, v: Option<Json>): Option<Json>
    decreases |path|
  {
    if path == [] then v
    else match doc
      case Some(Object(m)) => Some(Object(Set(m, path[0], Put(Get(m, path[0]), path[1..], v))))
      case Some(Array(s)) => Some(Array(PutItem(s, path, v)))
      case _ => doc
  }

  function PutItem(s: seq<Json>, path: seq<string>, v: Option<Json>): seq<Json>
    requires path != []
    decreases |path|, 0
  {
    var index := IndexOf(path[0]);
    if index.None? || index.value > |s| then s
    else
      var i := index.value;
      var item := Put(Item(s, i), path[1..], v);
      if item.None? then s[..i]
      else if i < |s| then s[i := item.value]
      else s + [item.value]
  }

  function Replay(doc: Option<Json>, cs: seq<Change>): Option<Json>
    decreases cs
  {
    if cs == [] then doc else Replay(Put(doc, cs[0].path, cs[0].after), cs[1..])
  }

  function Mirror(cs: seq<Change>): seq<Change> {
    if cs == [] then [] else [Change(cs[0].path, cs[0].after, cs[0].before)] + Mirror(cs[1..])
  }

  lemma {:induction false} ReplayAppends(doc: Option<Json>, a: seq<Change>, b: seq<Change>)
    ensures Replay(doc, a + b) == Replay(Replay(doc, a), b)
    decreases a
  {
    if a == [] {
      assert a + b == b;
    } else {
      assert (a + b)[1..] == a[1..] + b;
      ReplayAppends(Put(doc, a[0].path, a[0].after), a[1..], b);
    }
  }

  lemma {:induction false} MirrorAppends(a: seq<Change>, b: seq<Change>)
    ensures Mirror(a + b) == Mirror(a) + Mirror(b)
  {
    if a == [] {
      assert a + b == b;
    } else {
      assert (a + b)[1..] == a[1..] + b;
      MirrorAppends(a[1..], b);
    }
  }

  /** The same changes one level further down. */
  function Under(key: string, cs: seq<Change>): seq<Change> {
    if cs == [] then []
    else [Change([key] + cs[0].path, cs[0].before, cs[0].after)] + Under(key, cs[1..])
  }

  lemma {:induction false} UnderAppends(key: string, a: seq<Change>, b: seq<Change>)
    ensures Under(key, a + b) == Under(key, a) + Under(key, b)
  {
    if a == [] {
      assert a + b == b;
    } else {
      assert (a + b)[1..] == a[1..] + b;
      UnderAppends(key, a[1..], b);
    }
  }

  // ---- the diff does not depend on where it stands ----

  lemma {:induction false} ChangesUnder(key: string, path: seq<string>, before: Option<Json>, after: Option<Json>)
    ensures Changes([key] + path, before, after) == Under(key, Changes(path, before, after))
    decreases Tag(before), Inner(before), 1, 0
  {
    if before != after && before.Some? && after.Some? {
      if before.value.Object? && after.value.Object? {
        MemberChangesUnder(key, path, SortedKeys(before.value.members.Keys + after.value.members.Keys), before.value,
          after.value);
      } else if before.value.Array? && after.value.Array? {
        ItemChangesUnder(key, path, 0, before.value, after.value);
      }
    }
  }

  lemma {:induction false} MemberChangesUnder(key: string, path: seq<string>, keys: seq<string>, before: Json,
                                              after: Json)
    requires before.Object? && after.Object?
    ensures MemberChanges([key] + path, keys, before, after) == Under(key, MemberChanges(path, keys, before, after))
    decreases 1, before, 0, |keys|
  {
    if keys != [] {
      var k := keys[0];
      assert [key] + path + [k] == [key] + (path + [k]);
      ChangesUnder(key, path + [k], Get(before.members, k), Get(after.members, k));
      MemberChangesUnder(key, path, keys[1..], before, after);
      UnderAppends(key, Changes(path + [k], Get(before.members, k), Get(after.members, k)),
        MemberChanges(path, keys[1..], before, after));
    }
  }

  lemma {:induction false} ItemChangesUnder(key: string, path: seq<string>, from: nat, before: Json, after: Json)
    requires before.Array? && after.Array? && from <= Max(|before.items|, |after.items|)
    ensures ItemChanges([key] + path, from, before, after) == Under(key, ItemChanges(path, from, before, after))
    decreases 1, before, 0, Max(|before.items|, |after.items|) - from
  {
    if from < Max(|before.items|, |after.items|) {
      var k := Decimal(from);
      assert [key] + path + [k] == [key] + (path + [k]);
      ChangesUnder(key, path + [k], Item(before.items, from), Item(after.items, from));
      ItemChangesUnder(key, path, from + 1, before, after);
      UnderAppends(key, Changes(path + [k], Item(before.items, from), Item(after.items, from)),
        ItemChanges(path, from + 1, before, after));
    }
  }

  // ---- replay one level further down ----

  lemma {:induction false} ReplayUnderKey(m: map<string, Json>, key: string, cs: seq<Change>)
    ensures Replay(Some(Object(m)), Under(key, cs)) == Some(Object(Set(m, key, Replay(Get(m, key), cs))))
    decreases cs
  {
    if cs == [] {
      assert Set(m, key, Get(m, key)) == m;
    } else {
      var v := Put(Get(m, key), cs[0].path, cs[0].after);
      var moved := Under(key, cs);
      assert moved[0].path[0] == key && moved[0].path[1..] == cs[0].path && moved[1..] == Under(key, cs[1..]);
      assert Get(Set(m, key, v), key) == v;
      ReplayUnderKey(Set(m, key, v), key, cs[1..]);
      var w := Replay(v, cs[1..]);
      assert Set(Set(m, key, v), key, w) == Set(m, key, w);
    }
  }

  ghost predicate KeepsPresence(cs: seq<Change>) {
    forall c | c in cs && c.path == [] :: c.after.Some?
  }

  lemma {:induction false} ReplayUnderIndex(s: seq<Json>, i: nat, cs: seq<Change>)
    requires i < |s| && KeepsPresence(cs)
    ensures Replay(Some(s[i]), cs).Some?
    ensures Replay(Some(Array(s)), Under(Decimal(i), cs)) == Some(Array(s[i := Replay(Some(s[i]), cs).value]))
    decreases cs
  {
    if cs == [] {
      assert s[i := s[i]] == s;
    } else {
      var c, rest := cs[0], cs[1..];
      assert c in cs && forall d | d in rest :: d in cs;
      var v := Put(Some(s[i]), c.path, c.after);
      var moved := Under(Decimal(i), cs);
      assert moved[0].path[0] == Decimal(i) && moved[0].path[1..] == c.path && moved[1..] == Under(Decimal(i), rest);
      IndexOfDecimal(i);
      var t := s[i := v.value];
      assert PutItem(s, moved[0].path, c.after) == t;
      ReplayUnderIndex(t, i, rest);
      assert t[i := Replay(v, rest).value] == s[i := Replay(v, rest).value];
    }
  }

  lemma ItemKeepsPresence(before: Json, after: Json)
    ensures KeepsPresence(Changes([], Some(before), Some(after)))
  {
    var cs := Changes([], Some(before), Some(after));
    if before != after {
      if before.Object? && after.Object? {
        MembersAreInside([], SortedKeys(before.members.Keys + after.members.Keys), before, after);
      } else if before.Array? && after.Array? {
        ItemsAreInside([], 0, before, after);
      }
    }
  }

  // ---- every change lies inside the place that was compared ----

  ghost predicate Inside(path: seq<string>, cs: seq<Change>) {
    forall c | c in cs :: path <= c.path
  }

  lemma {:induction false} ChangesAreInside(path: seq<string>, before: Option<Json>, after: Option<Json>)
    ensures Inside(path, Changes(path, before, after))
    decreases Tag(before), Inner(before), 1, 0
  {
    if before != after && before.Some? && after.Some? {
      if before.value.Object? && after.value.Object? {
        MembersAreInside(path, SortedKeys(before.value.members.Keys + after.value.members.Keys), before.value,
          after.value);
      } else if before.value.Array? && after.value.Array? {
        ItemsAreInside(path, 0, before.value, after.value);
      }
    }
  }

  lemma {:induction false} MembersAreInside(path: seq<string>, keys: seq<string>, before: Json, after: Json)
    requires before.Object? && after.Object?
    ensures forall c | c in MemberChanges(path, keys, before, after) ::
              |path| < |c.path| && path == c.path[..|path|] && c.path[|path|] in keys
    decreases 1, before, 0, |keys|
  {
    if keys != [] {
      ChangesAreInside(path + [keys[0]], Get(before.members, keys[0]), Get(after.members, keys[0]));
      MembersAreInside(path, keys[1..], before, after);
    }
  }

  lemma {:induction false} ItemsAreInside(path: seq<string>, from: nat, before: Json, after: Json)
    requires before.Array? && after.Array? && from <= Max(|before.items|, |after.items|)
    ensures forall c | c in ItemChanges(path, from, before, after) ::
              && |path| < |c.path| && path == c.path[..|path|]
              && IndexOf(c.path[|path|]).Some? && from <= IndexOf(c.path[|path|]).value
    decreases 1, before, 0, Max(|before.items|, |after.items|) - from
  {
    if from < Max(|before.items|, |after.items|) {
      ChangesAreInside(path + [Decimal(from)], Item(before.items, from), Item(after.items, from));
      IndexOfDecimal(from);
      ItemsAreInside(path, from + 1, before, after);
    }
  }

  // ---- replaying the diff ----

  lemma {:induction false} ReplayRebuilds(before: Option<Json>, after: Option<Json>)
    ensures Replay(before, Changes([], before, after)) == after
    decreases Tag(before), Inner(before), 1, 0
  {
    if before != after && before.Some? && after.Some? {
      hide Merged, Mixed, SortedKeys;
      if before.value.Object? && after.value.Object? {
        var b, a := before.value.members, after.value.members;
        var keys := SortedKeys(b.Keys + a.Keys);
        SortedKeysAreSorted(b.Keys + a.Keys);
        SortedKeysAreAllDistinct(b.Keys + a.Keys);
        ReplayMembers(b, keys, before.value, after.value);
        MergedWithAll(b, keys, a);
      } else if before.value.Array? && after.value.Array? {
        ReplayItems(0, before.value, after.value);
        MixedEnds(before.value.items, after.value.items);
      }
    }
  }

  lemma MergedWithAll(b: map<string, Json>, keys: seq<string>, a: map<string, Json>)
    requires forall k :: k in b.Keys + a.Keys <==> k in keys
    ensures Merged(b, keys, a) == a
  {
  }

  lemma MixedEnds(b: seq<Json>, a: seq<Json>)
    ensures Mixed(0, b, a) == b && Mixed(Max(|b|, |a|), b, a) == a
  {
  }

  /** The members of m, those named by the keys taken from a. */
  ghost function Merged(m: map<string, Json>, keys: seq<string>, a: map<string, Json>): map<string, Json> {
    map k | k in m.Keys + a.Keys && (if k in keys then k in a else k in m) :: if k in keys then a[k] else m[k]
  }

  /** What is still to be replayed is distinct and has not been touched. */
  ghost predicate Pending(m: map<string, Json>, keys: seq<string>, b: map<string, Json>) {
    && (forall i, j | 0 <= i < j < |keys| :: keys[i] != keys[j])
    && (forall k | k in keys :: Get(m, k) == Get(b, k))
  }

  lemma PendingAdvances(m: map<string, Json>, keys: seq<string>, b: map<string, Json>, v: Option<Json>)
    requires keys != [] && Pending(m, keys, b)
    ensures Pending(Set(m, keys[0], v), keys[1..], b)
  {
    var k, rest := keys[0], keys[1..];
    forall l | l in rest
      ensures Get(Set(m, k, v), l) == Get(b, l)
    {
      var j :| 0 <= j < |rest| && rest[j] == l;
      assert keys[0] != keys[j + 1];
    }
  }

  lemma MergedAdvances(m: map<string, Json>, k: string, rest: seq<string>, a: map<string, Json>)
    requires k !in rest
    ensures Merged(Set(m, k, Get(a, k)), rest, a) == Merged(m, [k] + rest, a)
  {
    assert forall l :: l in [k] + rest <==> l == k || l in rest;
  }

  lemma {:induction false} ReplayMembers(m: map<string, Json>, keys: seq<string>, before: Json, after: Json)
    requires before.Object? && after.Object? && Pending(m, keys, before.members)
    ensures Replay(Some(Object(m)), MemberChanges([], keys, before, after))
            == Some(Object(Merged(m, keys, after.members)))
    decreases 1, before, 0, |keys|
  {
    var a := after.members;
    if keys == [] {
      assert Merged(m, keys, a) == m;
    } else {
      var k, rest := keys[0], keys[1..];
      ReplayMember(m, k, rest, before, after);
      ReplayRebuilds(Get(before.members, k), Get(a, k));
      PendingAdvances(m, keys, before.members, Get(a, k));
      MergedAdvances(m, k, rest, a);
      assert keys == [k] + rest;
      ReplayMembers(Set(m, k, Get(a, k)), rest, before, after);
    }
  }

  lemma ReplayMember(m: map<string, Json>, k: string, rest: seq<string>, before: Json, after: Json)
    requires before.Object? && after.Object? && Get(m, k) == Get(before.members, k)
    ensures var cs := Changes([], Get(before.members, k), Get(after.members, k));
            Replay(Some(Object(m)), MemberChanges([], [k] + rest, before, after))
            == Replay(Some(Object(Set(m, k, Replay(Get(before.members, k), cs)))),
              MemberChanges([], rest, before, after))
  {
    var cs := Changes([], Get(before.members, k), Get(after.members, k));
    assert [] + [k] == [k] + [] && ([k] + rest)[1..] == rest;
    ChangesUnder(k, [], Get(before.members, k), Get(after.members, k));
    ReplayAppends(Some(Object(m)), Under(k, cs), MemberChanges([], rest, before, after));
    ReplayUnderKey(m, k, cs);
  }

  /** The array after the first `from` positions have been replayed. */
  ghost function Mixed(from: nat, b: seq<Json>, a: seq<Json>): seq<Json> {
    if from <= |a| then a[..from] + (if from <= |b| then b[from..] else []) else a
  }

  lemma {:induction false} ReplayItems(from: nat, before: Json, after: Json)
    requires before.Array? && after.Array? && from <= Max(|before.items|, |after.items|)
    ensures Replay(Some(Array(Mixed(from, before.items, after.items))), ItemChanges([], from, before, after))
            == Some(Array(Mixed(Max(|before.items|, |after.items|), before.items, after.items)))
    decreases 1, before, 0, Max(|before.items|, |after.items|) - from
  {
    var b, a := before.items, after.items;
    if from < Max(|b|, |a|) {
      var k := Decimal(from);
      var cs := Changes([], Item(b, from), Item(a, from));
      assert [] + [k] == [k] + [];
      ChangesUnder(k, [], Item(b, from), Item(a, from));
      ReplayAppends(Some(Array(Mixed(from, b, a))), Under(k, cs), ItemChanges([], from + 1, before, after));
      ReplayItem(from, before, after);
      ReplayItems(from + 1, before, after);
    }
  }

  lemma {:induction false} ReplayItem(from: nat, before: Json, after: Json)
    requires before.Array? && after.Array? && from < Max(|before.items|, |after.items|)
    ensures Replay(Some(Array(Mixed(from, before.items, after.items))),
                   Under(Decimal(from), Changes([], Item(before.items, from), Item(after.items, from))))
            == Some(Array(Mixed(from + 1, before.items, after.items)))
    decreases 1, before, 0, 0
  {
    var b, a := before.items, after.items;
    var s, t := Mixed(from, b, a), Mixed(from + 1, b, a);
    var cs := Changes([], Item(b, from), Item(a, from));
    if from < |b| && from < |a| {
      ItemKeepsPresence(b[from], a[from]);
      ReplayUnderIndex(s, from, cs);
      ReplayRebuilds(Some(b[from]), Some(a[from]));
      assert s[from] == b[from] && s[from := a[from]] == t;
    } else {
      assert cs == [Change([], Item(b, from), Item(a, from))];
      IndexOfDecimal(from);
      assert PutItem(s, [Decimal(from)], Item(a, from)) == t;
      ReplayOne(Some(Array(s)), Decimal(from), Item(b, from), Item(a, from));
    }
  }

  lemma ReplayOne(doc: Option<Json>, key: string, before: Option<Json>, after: Option<Json>)
    ensures Replay(doc, Under(key, [Change([], before, after)])) == Put(doc, [key], after)
  {
    var c := Change([], before, after);
    assert [c][1..] == [] && [key] + [] == [key];
    assert Under(key, [c]) == [Change([key], before, after)] + Under(key, [c][1..]);
    assert Under(key, [c]) == [Change([key], before, after)];
    assert [Change([key], before, after)][1..] == [];
  }

  // ---- the mirrored diff ----

  lemma {:induction false} MirrorOfChanges(path: seq<string>, before: Option<Json>, after: Option<Json>)
    ensures Mirror(Changes(path, before, after)) == Changes(path, after, before)
    decreases Tag(before), Inner(before), 1, 0
  {
    if before != after {
      if before.Some? && after.Some? && before.value.Object? && after.value.Object? {
        var b, a := before.value, after.value;
        assert b.members.Keys + a.members.Keys == a.members.Keys + b.members.Keys;
        MirrorOfMembers(path, SortedKeys(b.members.Keys + a.members.Keys), b, a);
      } else if before.Some? && after.Some? && before.value.Array? && after.value.Array? {
        MirrorOfItems(path, 0, before.value, after.value);
      } else {
        assert [Change(path, before, after)][1..] == [];
      }
    }
  }

  lemma {:induction false} MirrorOfMembers(path: seq<string>, keys: seq<string>, before: Json, after: Json)
    requires before.Object? && after.Object?
    ensures Mirror(MemberChanges(path, keys, before, after)) == MemberChanges(path, keys, after, before)
    decreases 1, before, 0, |keys|
  {
    if keys != [] {
      var k := keys[0];
      MirrorOfChanges(path + [k], Get(before.members, k), Get(after.members, k));
      MirrorOfMembers(path, keys[1..], before, after);
      MirrorAppends(Changes(path + [k], Get(before.members, k), Get(after.members, k)),
        MemberChanges(path, keys[1..], before, after));
    }
  }

  lemma {:induction false} MirrorOfItems(path: seq<string>, from: nat, before: Json, after: Json)
    requires before.Array? && after.Array? && from <= Max(|before.items|, |after.items|)
    ensures Mirror(ItemChanges(path, from, before, after)) == ItemChanges(path, from, after, before)
    decreases 1, before, 0, Max(|before.items|, |after.items|) - from
  {
    if from < Max(|before.items|, |after.items|) {
      var k := Decimal(from);
      MirrorOfChanges(path + [k], Item(before.items, from), Item(after.items, from));
      MirrorOfItems(path, from + 1, before, after);
      MirrorAppends(Changes(path + [k], Item(before.items, from), Item(after.items, from)),
        ItemChanges(path, from + 1, before, after));
    }
  }

  /** Replaying the mirrored diff takes the new value back to the old one. */
  lemma MirrorRestores(before: Option<Json>, after: Option<Json>)
    ensures Replay(after, Mirror(Changes([], before, after))) == before
  {
    MirrorOfChanges([], before, after);
    ReplayRebuilds(after, before);
  }

  /** Nothing is listed exactly when nothing differs. */
  lemma EmptyExactlyWhenEqual(path: seq<string>, before: Option<Json>, after: Option<Json>)
    ensures Changes(path, before, after) == [] <==> before == after
  {
    ReplayRebuilds(before, after);
    SameLengthAnywhere(path, before, after);
  }

  lemma {:induction false} SameLengthAnywhere(path: seq<string>, before: Option<Json>, after: Option<Json>)
    ensures |Changes(path, before, after)| == |Changes([], before, after)|
    decreases |path|
  {
    if path != [] {
      assert path == [path[0]] + path[1..];
      ChangesUnder(path[0], path[1..], before, after);
      UnderKeepsLength(path[0], Changes(path[1..], before, after));
      SameLengthAnywhere(path[1..], before, after);
    }
  }

  lemma {:induction false} UnderKeepsLength(key: string, cs: seq<Change>)
    ensures |Under(key, cs)| == |cs|
  {
    if cs != [] {
      UnderKeepsLength(key, cs[1..]);
    }
  }

  // ---- no change lies inside another ----

  ghost predicate Separate(cs: seq<Change>) {
    forall i, j | 0 <= i < j < |cs| :: Apart(cs[i].path, cs[j].path)
  }

  ghost predicate Apart(p: seq<string>, q: seq<string>) {
    !(p <= q) && !(q <= p)
  }

  lemma ConcatenationIsSeparate(a: seq<Change>, b: seq<Change>)
    requires Separate(a) && Separate(b) && forall c, d | c in a && d in b :: Apart(c.path, d.path)
    ensures Separate(a + b)
  {
    forall i, j | 0 <= i < j < |a + b|
      ensures Apart((a + b)[i].path, (a + b)[j].path)
    {
      if j < |a| {
        assert (a + b)[i] == a[i] && (a + b)[j] == a[j];
      } else if i < |a| {
        assert (a + b)[i] in a && (a + b)[j] == b[j - |a|] && (a + b)[j] in b;
      } else {
        assert (a + b)[i] == b[i - |a|] && (a + b)[j] == b[j - |a|];
      }
    }
  }

  lemma BranchesAreApart(path: seq<string>, k: string, p: seq<string>, q: seq<string>)
    requires path + [k] <= p && |path| < |q| && path == q[..|path|] && q[|path|] != k
    ensures Apart(p, q)
  {
    assert p[|path|] == (path + [k])[|path|] == k;
  }

  lemma {:induction false} ChangesAreSeparate(path: seq<string>, before: Option<Json>, after: Option<Json>)
    ensures Separate(Changes(path, before, after))
    decreases Tag(before), Inner(before), 1, 0
  {
    if before != after && before.Some? && after.Some? {
      if before.value.Object? && after.value.Object? {
        SortedKeysAreAllDistinct(before.value.members.Keys + after.value.members.Keys);
        MembersAreSeparate(path, SortedKeys(before.value.members.Keys + after.value.members.Keys), before.value,
          after.value);
      } else if before.value.Array? && after.value.Array? {
        ItemsAreSeparate(path, 0, before.value, after.value);
      }
    }
  }

  lemma {:induction false} MembersAreSeparate(path: seq<string>, keys: seq<string>, before: Json, after: Json)
    requires before.Object? && after.Object?
    requires forall i, j | 0 <= i < j < |keys| :: keys[i] != keys[j]
    ensures Separate(MemberChanges(path, keys, before, after))
    decreases 1, before, 0, |keys|
  {
    if keys != [] {
      var k, rest := keys[0], keys[1..];
      var first, later := Changes(path + [k], Get(before.members, k), Get(after.members, k)),
        MemberChanges(path, rest, before, after);
      ChangesAreSeparate(path + [k], Get(before.members, k), Get(after.members, k));
      MembersAreSeparate(path, rest, before, after);
      ChangesAreInside(path + [k], Get(before.members, k), Get(after.members, k));
      MembersAreInside(path, rest, before, after);
      forall c, d | c in first && d in later
        ensures Apart(c.path, d.path)
      {
        assert d.path[|path|] in rest && k !in rest;
        BranchesAreApart(path, k, c.path, d.path);
      }
      ConcatenationIsSeparate(first, later);
    }
  }

  lemma {:induction false} ItemsAreSeparate(path: seq<string>, from: nat, before: Json, after: Json)
    requires before.Array? && after.Array? && from <= Max(|before.items|, |after.items|)
    ensures Separate(ItemChanges(path, from, before, after))
    decreases 1, before, 0, Max(|before.items|, |after.items|) - from
  {
    if from < Max(|before.items|, |after.items|) {
      var k := Decimal(from);
      var first, later := Changes(path + [k], Item(before.items, from), Item(after.items, from)),
        ItemChanges(path, from + 1, before, after);
      ChangesAreSeparate(path + [k], Item(before.items, from), Item(after.items, from));
      ItemsAreSeparate(path, from + 1, before, after);
      ChangesAreInside(path + [k], Item(before.items, from), Item(after.items, from));
      ItemsAreInside(path, from + 1, before, after);
      IndexOfDecimal(from);
      forall c, d | c in first && d in later
        ensures Apart(c.path, d.path)
      {
        assert d.path[|path|] != k;
        BranchesAreApart(path, k, c.path, d.path);
      }
      ConcatenationIsSeparate(first, later);
    }
  }

  // ---- the bounded list of rendered changes ----

  ghost function Rendered(cs: seq<Change>): (r: seq<PatchChange>)
    ensures |r| == |cs|
  {
    if cs == [] then []
    else [PatchChange(Render(cs[0].path), cs[0].before, cs[0].after)] + Rendered(cs[1..])
  }

  lemma {:induction false} RenderedAt(cs: seq<Change>, i: nat)
    requires i < |cs|
    ensures Rendered(cs)[i] == PatchChange(Render(cs[i].path), cs[i].before, cs[i].after)
  {
    if i > 0 {
      RenderedAt(cs[1..], i - 1);
    }
  }

  lemma {:induction false} RenderedAppends(a: seq<Change>, b: seq<Change>)
    ensures Rendered(a + b) == Rendered(a) + Rendered(b)
  {
    if a == [] {
      assert a + b == b;
    } else {
      assert (a + b)[1..] == a[1..] + b;
      RenderedAppends(a[1..], b);
    }
  }

  /** A rendered list read back. */
  function Parsed(ps: seq<PatchChange>): seq<Change> {
    if ps == [] then [] else [Change(Parse(ps[0].pointer), ps[0].before, ps[0].after)] + Parsed(ps[1..])
  }

  lemma {:induction false} ParsedRendered(cs: seq<Change>)
    ensures Parsed(Rendered(cs)) == cs
  {
    if cs != [] {
      ParseRender(cs[0].path);
      ParsedRendered(cs[1..]);
      assert Rendered(cs)[1..] == Rendered(cs[1..]);
    }
  }

  /** No pointer equals another or addresses a place inside it. */
  ghost predicate PointersSeparate(ps: seq<PatchChange>) {
    forall i, j | 0 <= i < |ps| && 0 <= j < |ps| && i != j ::
      ps[i].pointer != ps[j].pointer && !(ps[i].pointer + "/" <= ps[j].pointer)
  }

  lemma RenderedIsSeparate(cs: seq<Change>)
    requires Separate(cs)
    ensures PointersSeparate(Rendered(cs))
  {
    var ps := Rendered(cs);
    forall i, j | 0 <= i < |ps| && 0 <= j < |ps| && i != j
      ensures ps[i].pointer != ps[j].pointer && !(ps[i].pointer + "/" <= ps[j].pointer)
    {
      RenderedAt(cs, i);
      RenderedAt(cs, j);
      assert Apart(cs[i].path, cs[j].path);
      if ps[i].pointer == ps[j].pointer {
        RenderIsInjective(cs[i].path, cs[j].path);
      }
      if ps[i].pointer + "/" <= ps[j].pointer {
        InsideMeansPrefix(cs[i].path, cs[j].path);
      }
    }
  }

  function Truncated<T>(s: seq<T>, limit: nat): seq<T> {
    if |s| <= limit then s else s[..limit]
  }

  /** The vector of changes that collect_changes is given. */
  class ChangeList {
    var items: seq<PatchChange>

    constructor ()
      ensures items == []
    {
      items := [];
    }
  }

  /** collect_changes: push the rendered diff, and fail exactly when it does not fit. */
  method CollectChanges(pointer: string, ghost path: seq<string>, before: Option<Json>, after: Option<Json>,
                        changes: ChangeList)
    returns (ok: bool)
    requires pointer == Render(path) && |changes.items| <= MAX_PROPOSAL_CHANGES
    modifies changes
    ensures ok <==> old(|changes.items|) + |Changes(path, before, after)| <= MAX_PROPOSAL_CHANGES
    ensures changes.items
            == Truncated(old(changes.items) + Rendered(Changes(path, before, after)), MAX_PROPOSAL_CHANGES)
    decreases Tag(before), Inner(before), 1, 0
  {
    if before == after {
      return true;
    }
    match (before, after) {
      case (Some(Object(b)), Some(Object(a))) =>
        ok := CollectMembers(pointer, path, before.value, after.value, changes);
      case (Some(Array(b)), Some(Array(a))) =>
        ok := CollectItems(pointer, path, before.value, after.value, changes);
      case _ =>
        assert Rendered([Change(path, before, after)]) == [PatchChange(pointer, before, after)] by {
          RenderedAt([Change(path, before, after)], 0);
        }
        if |changes.items| >= MAX_PROPOSAL_CHANGES {
          return false;
        }
        changes.items := changes.items + [PatchChange(pointer, before, after)];
        return true;
    }
  }

  method CollectMembers(pointer: string, ghost path: seq<string>, before: Json, after: Json, changes: ChangeList)
    returns (ok: bool)
    requires before.Object? && after.Object?
    requires pointer == Render(path) && |changes.items| <= MAX_PROPOSAL_CHANGES
    modifies changes
    ensures var cs := MemberChanges(path, SortedKeys(before.members.Keys + after.members.Keys), before, after);
            && (ok <==> old(|changes.items|) + |cs| <= MAX_PROPOSAL_CHANGES)
            && changes.items == Truncated(old(changes.items) + Rendered(cs), MAX_PROPOSAL_CHANGES)
    decreases 1, before, 0, 0
  {
    hide Changes, Rendered, Render, Escape, Unescape, SortedKeys;
    var keys := CollectSorted(before.members.Keys + after.members.Keys);
    ghost var all := old(changes.items) + Rendered(MemberChanges(path, keys, before, after));
    for i := 0 to |keys|
      invariant |changes.items| <= MAX_PROPOSAL_CHANGES
      invariant changes.items + Rendered(MemberChanges(path, keys[i..], before, after)) == all
    {
      ghost var first := Changes(path + [keys[i]], Get(before.members, keys[i]), Get(after.members, keys[i]));
      assert keys[i..][1..] == keys[i + 1..];
      RenderedAppends(first, MemberChanges(path, keys[i + 1..], before, after));
      assert all == changes.items + Rendered(first) + Rendered(MemberChanges(path, keys[i + 1..], before, after));
      RenderAppends(path, keys[i]);
      UnescapeEscape(keys[i]);
      var key := Escape(keys[i]);
      ok := CollectChanges(pointer + "/" + key, path + [keys[i]],
        Get(before.members, Unescape(key)), Get(after.members, Unescape(key)), changes);
      if !ok {
        return;
      }
    }
    ok := true;
  }

  method CollectItems(pointer: string, ghost path: seq<string>, before: Json, after: Json, changes: ChangeList)
    returns (ok: bool)
    requires before.Array? && after.Array?
    requires pointer == Render(path) && |changes.items| <= MAX_PROPOSAL_CHANGES
    modifies changes
    ensures var cs := ItemChanges(path, 0, before, after);
            && (ok <==> old(|changes.items|) + |cs| <= MAX_PROPOSAL_CHANGES)
            && changes.items == Truncated(old(changes.items) + Rendered(cs), MAX_PROPOSAL_CHANGES)
    decreases 1, before, 0, 0
  {
    hide Decimal, Changes, Render, Rendered;
    ghost var all := old(changes.items) + Rendered(ItemChanges(path, 0, before, after));
    for i := 0 to Max(|before.items|, |after.items|)
      invariant |changes.items| <= MAX_PROPOSAL_CHANGES
      invariant changes.items + Rendered(ItemChanges(path, i, before, after)) == all
    {
      ghost var first := Changes(path + [Decimal(i)], Item(before.items, i), Item(after.items, i));
      RenderedAppends(first, ItemChanges(path, i + 1, before, after));
      assert all == changes.items + Rendered(first) + Rendered(ItemChanges(path, i + 1, before, after));
      RenderAppends(path, Decimal(i));
      DecimalIsPlain(i);
      ok := CollectChanges(pointer + "/" + Decimal(i), path + [Decimal(i)], Item(before.items, i), Item(after.items, i),
        changes);
      if !ok {
        return;
      }
    }
    ok := true;
  }

  // ---- the changes of a staged patch ----

  function Roots(patch: ProjectPatch): seq<string> {
    (if patch.name.Some? then ["name"] else [])
    + (if patch.description.Some? then ["description"] else [])
    + (if patch.settings.Some? then ["settings"] else [])
    + (if patch.resources.Some? then ["resources"] else [])
  }

  /** The diff below the members the patch names. */
  ghost function PatchDiff(base: EditableProject, candidate: EditableProject, patch: ProjectPatch): seq<Change> {
    MemberChanges([], Roots(patch), ToValue(base), ToValue(candidate))
  }

  /** Value::pointer of a pointer to a member of an object. */
  function Pointer(v: Json, pointer: string): Option<Json> {
    var path := Parse(pointer);
    if |path| == 1 && v.Object? then Get(v.members, path[0]) else None
  }

  /** project_patch_changes. */
  method ProjectPatchChanges(base: EditableProject, candidate: EditableProject, patch: ProjectPatch)
    returns (r: Result<seq<PatchChange>, ()>)
    ensures r.Ok? <==> |PatchDiff(base, candidate, patch)| <= MAX_PROPOSAL_CHANGES
    ensures r.Ok? ==> r.value == Rendered(PatchDiff(base, candidate, patch))
  {
    hide Members, Roots, Changes, Rendered, Render, Parse;
    var before, after, roots := ToValue(base), ToValue(candidate), Roots(patch);
    var changes := new ChangeList();
    ghost var all := Rendered(MemberChanges([], roots, before, after));
    for i := 0 to |roots|
      invariant |changes.items| <= MAX_PROPOSAL_CHANGES
      invariant changes.items + Rendered(MemberChanges([], roots[i..], before, after)) == all
    {
      var pointer := "/" + roots[i];
      ghost var first := Changes([roots[i]], Get(before.members, roots[i]), Get(after.members, roots[i]));
      assert roots[i..][1..] == roots[i + 1..] && [] + [roots[i]] == [roots[i]];
      RenderedAppends(first, MemberChanges([], roots[i + 1..], before, after));
      assert all == changes.items + Rendered(first) + Rendered(MemberChanges([], roots[i + 1..], before, after));
      RootPointer(patch, roots[i]);
      var ok := CollectChanges(pointer, [roots[i]], Pointer(before, pointer), Pointer(after, pointer), changes);
      if !ok {
        return Err(());
      }
    }
    r := Ok(changes.items);
  }

  lemma RootPointer(patch: ProjectPatch, root: string)
    requires root in Roots(patch)
    ensures Render([root]) == "/" + root && Parse("/" + root) == [root]
  {
    assert root == "name" || root == "description" || root == "settings" || root == "resources";
    PlainRoot(root);
  }

  lemma PlainRoot(root: string)
    requires root == "name" || root == "description" || root == "settings" || root == "resources"
    ensures Render([root]) == "/" + root && Parse("/" + root) == [root]
  {
    assert '~' !in root && '/' !in root;
    PlainRender(root);
  }

  lemma PlainRender(root: string)
    requires '~' !in root && '/' !in root
    ensures Render([root]) == "/" + root && Parse("/" + root) == [root]
  {
    PlainKeysAreUnchanged(root);
    assert [] + [root] == [root];
    RenderAppends([], root);
    ParseRender([root]);
  }

  lemma RootsAreDistinct(patch: ProjectPatch)
    ensures forall i, j | 0 <= i < j < |Roots(patch)| :: Roots(patch)[i] != Roots(patch)[j]
  {
  }

  lemma UnnamedMembersAreKept(base: EditableProject, patch: ProjectPatch)
    ensures var b, a := Members(base), Members(Apply(patch, base));
            b.Keys == a.Keys && forall k | k in b && k !in Roots(patch) :: b[k] == a[k]
  {
  }

  /** What the user is shown is what would change: replaying the listed changes on the serialized
      base gives the serialized candidate, and mirrored they take it back. */
  lemma PatchChangesRebuildCandidate(base: EditableProject, patch: ProjectPatch)
    ensures var candidate := Apply(patch, base);
            var listed := Rendered(PatchDiff(base, candidate, patch));
            && Replay(Some(ToValue(base)), Parsed(listed)) == Some(ToValue(candidate))
            && Replay(Some(ToValue(candidate)), Mirror(Parsed(listed))) == Some(ToValue(base))
            && (listed == [] <==> ToValue(base) == ToValue(candidate))
            && PointersSeparate(listed)
  {
    assert Parsed([]) == [] && Replay(Some(ToValue(base)), []) == Some(ToValue(base));
    hide Members, Apply, Roots, MemberChanges, Rendered, Parsed, Replay, Mirror;
    var candidate := Apply(patch, base);
    var cs, roots := PatchDiff(base, candidate, patch), Roots(patch);
    var b, a := ToValue(base), ToValue(candidate);
    ParsedRendered(cs);
    RootsAreDistinct(patch);
    UnnamedMembersAreKept(base, patch);
    ReplayNamedMembers(roots, b, a);
    MirrorOfMembers([], roots, b, a);
    ReplayNamedMembers(roots, a, b);
    if b == a {
      EqualMembersListNothing(roots, b);
    }
    MembersAreSeparate([], roots, b, a);
    RenderedIsSeparate(cs);
  }

  /** Two objects that agree outside the named members differ by exactly the changes below them. */
  lemma ReplayNamedMembers(keys: seq<string>, before: Json, after: Json)
    requires before.Object? && after.Object? && before.members.Keys == after.members.Keys
    requires forall k | k in before.members && k !in keys :: before.members[k] == after.members[k]
    requires forall i, j | 0 <= i < j < |keys| :: keys[i] != keys[j]
    ensures Replay(Some(before), MemberChanges([], keys, before, after)) == Some(after)
  {
    ReplayMembers(before.members, keys, before, after);
    assert Merged(before.members, keys, after.members) == after.members;
  }

  lemma {:induction false} EqualMembersListNothing(keys: seq<string>, v: Json)
    requires v.Object?
    ensures MemberChanges([], keys, v, v) == []
    decreases |keys|
  {
    if keys != [] {
      EqualMembersListNothing(keys[1..], v);
    }
  }
}
