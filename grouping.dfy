/**
 * The grouping step of `displayResults`: the records are collected, in one
 * pass, into one list per `Medientyp || 'Sonstige'`, and the group keys are
 * then sorted. The cards themselves are DOM output and are not modelled.
 *
 * The accumulator is a plain object literal, so it inherits the properties of
 * `Object.prototype`: for a key that names one of them, the `if (!acc[key])`
 * guard sees the inherited (truthy) value, no list is created, and the
 * following `push` throws a `TypeError`. The model returns `None` then.
 */
module Grouping {
  import opened Wrappers
  import opened Seqs
  import opened Records
  import opened Ordering
  import Search

  /** The records of group `k`, in their order. */
  function Members(data: seq<Record>, k: string): seq<Record> {
    Filter(data, r => GroupKey(r) == k)
  }

  /** The keys that occur. */
  function KeysOf(data: seq<Record>): set<string> {
    set r | r in data :: GroupKey(r)
  }

  /** The accumulator the `reduce` builds: one list per key that occurs. */
  function Grouped(data: seq<Record>): map<string, seq<Record>> {
    map k | k in KeysOf(data) :: Members(data, k)
  }

  /** The groups' lists, one after another in the order of `keys`. */
  function Flatten(groups: map<string, seq<Record>>, keys: seq<string>): seq<Record>
    requires forall k :: k in keys ==> k in groups
  {
    if keys == [] then [] else groups[keys[0]] + Flatten(groups, keys[1..])
  }

  /** The property names every object inherits from `Object.prototype`. */
  predicate ProtoKey(k: string) {
    k in {"constructor", "__defineGetter__", "__defineSetter__", "hasOwnProperty",
          "__lookupGetter__", "__lookupSetter__", "isPrototypeOf", "propertyIsEnumerable",
          "toString", "valueOf", "__proto__", "toLocaleString"}
  }

  /** Some record's group key names an inherited property, so the `reduce` throws. */
  predicate GroupingThrows(data: seq<Record>) {
    exists i :: 0 <= i < |data| && ProtoKey(GroupKey(data[i]))
  }

  /** The `reduce` callback: push `item` onto its key's list, creating the list first. */
  function AddItem(acc: map<string, seq<Record>>, item: Record): map<string, seq<Record>> {
    var key := GroupKey(item);
    acc[key := (if key in acc then acc[key] else []) + [item]]
  }

  /**
   * The callback pushes `item` onto the end of its key's list (a new list
   * when the key is new) and leaves every other list as it was.
   */
  lemma AddItemPushes(acc: map<string, seq<Record>>, item: Record)
    ensures var r := AddItem(acc, item);
            var l := r[GroupKey(item)];
            && r.Keys == acc.Keys + {GroupKey(item)}
            && (forall k :: k in acc && k != GroupKey(item) ==> r[k] == acc[k])
            && l != [] && l[|l| - 1] == item
            && (GroupKey(item) in acc ==> l[..|l| - 1] == acc[GroupKey(item)])
            && (GroupKey(item) !in acc ==> l == [item])
  {
    var key := GroupKey(item);
    var l := (if key in acc then acc[key] else []) + [item];
    assert l[..|l| - 1] == (if key in acc then acc[key] else []);
  }

  /** `data.reduce(callback, {})`, one record at a time from the left. */
  function GroupFold(data: seq<Record>): map<string, seq<Record>> {
    if data == [] then map[] else AddItem(GroupFold(data[..|data| - 1]), data[|data| - 1])
  }

  /** Every list the fold builds is non-empty and holds only records of its own key. */
  lemma {:induction false} GroupFoldWellFormed(data: seq<Record>)
    ensures forall k :: k in GroupFold(data) ==> GroupFold(data)[k] != []
    ensures forall k, j :: k in GroupFold(data) && 0 <= j < |GroupFold(data)[k]| ==> GroupKey(GroupFold(data)[k][j]) == k
  {
    if data != [] {
      var prev := data[..|data| - 1];
      var item := data[|data| - 1];
      var before := GroupFold(prev);
      var g := GroupFold(data);
      GroupFoldWellFormed(prev);
      AddItemPushes(before, item);
      assert g == AddItem(before, item);
      forall k | k in g
        ensures g[k] != []
        ensures forall j :: 0 <= j < |g[k]| ==> GroupKey(g[k][j]) == k
      {
        if k != GroupKey(item) {
          assert g[k] == before[k];
        } else {
          var l := g[k];
          forall j | 0 <= j < |l|
            ensures GroupKey(l[j]) == k
          {
            if j < |l| - 1 {
              assert l[j] == l[..|l| - 1][j];
            }
          }
        }
      }
    }
  }

  /**
   * `data.reduce(...)` and `Object.keys(groupedResults).sort()`. `None` stands
   * for the `TypeError` a key inherited from `Object.prototype` raises.
   */
  method GroupResults(data: seq<Record>) returns (r: Option<(map<string, seq<Record>>, seq<string>)>)
    ensures r.None? <==> GroupingThrows(data)
    ensures r.Some? ==> r.value.0 == Grouped(data) && SortedGroups(data, r.value.0, r.value.1)
  {
    var acc: map<string, seq<Record>> := map[];
    var keys: seq<string> := [];
    for i := 0 to |data|
      invariant acc == GroupFold(data[..i])
      invariant NoDup(keys)
      invariant forall k :: k in keys <==> k in acc
      invariant forall j :: 0 <= j < i ==> !ProtoKey(GroupKey(data[j]))
    {
      var item := data[i];
      var key := GroupKey(item);
      if ProtoKey(key) {
        assert GroupingThrows(data) by {
          assert 0 <= i < |data| && ProtoKey(GroupKey(data[i]));
        }
        return None;
      }
      acc, keys := PushItem(acc, keys, item);
      GroupFoldStep(data, i);
    }
    assert !GroupingThrows(data);
    assert data[..|data|] == data;
    GroupFoldIsGrouped(data);
    SortedLayout(data, keys);
    r := Some((acc, Sort(keys)));
  }

  /** The fold over one more record of `data` applies the callback once more. */
  lemma GroupFoldStep(data: seq<Record>, i: int)
    requires 0 <= i < |data|
    ensures GroupFold(data[..i + 1]) == AddItem(GroupFold(data[..i]), data[i])
  {
    assert data[..i + 1][..i] == data[..i];
  }

  /**
   * The callback's body for a key the accumulator does not inherit: create
   * the list on first sight of the key (which then joins `Object.keys`), then
   * push. `keys` stays the accumulator's keys, each once.
   */
  method PushItem(acc: map<string, seq<Record>>, keys: seq<string>, item: Record)
    returns (acc': map<string, seq<Record>>, keys': seq<string>)
    requires NoDup(keys) && forall k :: k in keys <==> k in acc
    ensures acc' == AddItem(acc, item)
    ensures NoDup(keys') && forall k :: k in keys' <==> k in acc'
  {
    var key := GroupKey(item);
    acc', keys' := acc, keys;
    if key !in acc' {
      acc' := acc'[key := []];
      NoDupSnoc(keys', key);
      keys' := keys' + [key];
    }
    acc' := acc'[key := acc'[key] + [item]];
  }

  /**
   * For a real category, a group holds exactly the records the category
   * filter of the search would keep, in the same order.
   */
  lemma {:induction false} GroupIsCategory(data: seq<Record>, m: string)
    requires m != "" && m != OTHER_GROUP
    ensures Members(data, m) == Search.RestrictCategory(data, true, m)
  {
    if data != [] {
      GroupIsCategory(data[1..], m);
      Search.GroupKeyMatchesCategory(data[0], m);
    }
  }

  /** The fold builds exactly the declarative grouping. */
  lemma {:induction false} GroupFoldIsGrouped(data: seq<Record>)
    ensures GroupFold(data) == Grouped(data)
  {
    if data == [] {
      assert KeysOf(data) == {};
    } else {
      var prefix, last := data[..|data| - 1], data[|data| - 1];
      GroupFoldIsGrouped(prefix);
      GroupedSnoc(prefix, last);
      assert prefix + [last] == data;
    }
  }

  /**
   * What `displayResults` lays out: the keys of `groups` once each, sorted,
   * and the groups in that order are a permutation of `data`.
   */
  ghost predicate SortedGroups(data: seq<Record>, groups: map<string, seq<Record>>, keys: seq<string>) {
    && StrictlySorted(keys)
    && (forall k :: k in keys <==> k in groups)
    && multiset(Flatten(groups, keys)) == multiset(data)
  }

  /** Sorting the distinct keys and laying out their groups in that order. */
  lemma SortedLayout(data: seq<Record>, keys: seq<string>)
    requires NoDup(keys) && forall k :: k in keys <==> k in Grouped(data)
    ensures SortedGroups(data, Grouped(data), Sort(keys))
  {
    var sorted := Sort(keys);
    SortDistinct(keys);
    assert forall k :: k in sorted <==> k in multiset(keys);
    FlattenPermutation(data, sorted);
  }

  lemma MembersOfMissingKey(data: seq<Record>, k: string)
    requires k !in KeysOf(data)
    ensures Members(data, k) == []
  {
    FilterNone(data, r => GroupKey(r) == k);
  }

  /** One more record lengthens its own group and no other. */
  lemma GroupedSnoc(data: seq<Record>, x: Record)
    ensures Grouped(data + [x]) == AddItem(Grouped(data), x)
  {
    var key := GroupKey(x);
    var g := Grouped(data);
    var lhs := Grouped(data + [x]);
    var rhs := AddItem(g, x);
    assert KeysOf(data + [x]) == KeysOf(data) + {key};
    assert lhs.Keys == rhs.Keys;
    forall k | k in lhs
      ensures lhs[k] == rhs[k]
    {
      MembersSnoc(data, x, k);
      if k == key && key !in g {
        MembersOfMissingKey(data, k);
      }
    }
  }

  /** Appending a record extends only the members of its own key. */
  lemma MembersSnoc(data: seq<Record>, x: Record, k: string)
    ensures Members(data + [x], k) == Members(data, k) + (if GroupKey(x) == k then [x] else [])
  {
    FilterAppend(data, [x], r => GroupKey(r) == k);
  }

  /** `groups` holds, for each of `keys`, exactly that key's records of `data`. */
  predicate GroupsOf(groups: map<string, seq<Record>>, data: seq<Record>, keys: seq<string>) {
    forall k :: k in keys ==> k in groups && groups[k] == Members(data, k)
  }

  /**
   * Laying out the groups of `data` for distinct keys gives, as a multiset,
   * exactly the records whose key is among them.
   */
  lemma {:induction false} FlattenCount(groups: map<string, seq<Record>>, data: seq<Record>, keys: seq<string>)
    requires NoDup(keys) && GroupsOf(groups, data, keys)
    ensures multiset(Flatten(groups, keys)) == multiset(Filter(data, r => GroupKey(r) in keys))
  {
    if keys == [] {
      FilterNone(data, r => GroupKey(r) in keys);
    } else {
      var k0, rest := keys[0], keys[1..];
      assert NoDup(rest);
      assert GroupsOf(groups, data, rest);
      FlattenCount(groups, data, rest);
      var flat := Flatten(groups, keys);
      assert flat == Members(data, k0) + Flatten(groups, rest);
      var lhs := multiset(flat);
      var rhs := multiset(Filter(data, r => GroupKey(r) in keys));
      forall x
        ensures lhs[x] == rhs[x]
      {
        FilterCount(data, r => GroupKey(r) == k0, x);
        FilterCount(data, r => GroupKey(r) in rest, x);
        FilterCount(data, r => GroupKey(r) in keys, x);
        assert GroupKey(x) in keys <==> GroupKey(x) == k0 || GroupKey(x) in rest;
        assert k0 !in rest;
      }
      assert lhs == rhs;
    }
  }

  /** The flattened groups, for any listing of all the keys, are a permutation of the input. */
  lemma FlattenPermutation(data: seq<Record>, keys: seq<string>)
    requires NoDup(keys) && forall k :: k in keys <==> k in Grouped(data)
    ensures multiset(Flatten(Grouped(data), keys)) == multiset(data)
  {
    FlattenCount(Grouped(data), data, keys);
    forall x
      ensures multiset(Filter(data, r => GroupKey(r) in keys))[x] == multiset(data)[x]
    {
      FilterCount(data, r => GroupKey(r) in keys, x);
    }
  }

  /**
   * Every record lands in the group of its own key and in no other, and each
   * group keeps the records' relative order.
   */
  lemma ExactlyOneGroup(data: seq<Record>, x: Record, k: string)
    requires x in data && k in Grouped(data)
    ensures GroupKey(x) in Grouped(data) && x in Grouped(data)[GroupKey(x)]
    ensures k != GroupKey(x) ==> x !in Grouped(data)[k]
    ensures Subseq(Grouped(data)[k], data)
  {
    FilterMembers(data, r => GroupKey(r) == GroupKey(x), x);
    FilterMembers(data, r => GroupKey(r) == k, x);
    FilterSubseq(data, r => GroupKey(r) == k);
  }

  lemma {:induction false} MembersOfFlatten(groups: map<string, seq<Record>>, data: seq<Record>, keys: seq<string>, k: string)
    requires NoDup(keys) && GroupsOf(groups, data, keys)
    ensures Members(Flatten(groups, keys), k) == if k in keys then Members(data, k) else []
  {
    if keys != [] {
      var head := groups[keys[0]];
      var rest := keys[1..];
      assert NoDup(rest);
      assert GroupsOf(groups, data, rest);
      MembersOfFlatten(groups, data, rest, k);
      assert Flatten(groups, keys) == head + Flatten(groups, rest);
      FilterAppend(head, Flatten(groups, rest), r => GroupKey(r) == k);
      if keys[0] == k {
        FilterAll(head, r => GroupKey(r) == k);
        assert k !in rest;
      } else {
        FilterNone(head, r => GroupKey(r) == k);
      }
    }
  }

  /** Grouping the flattened groups again gives the same groups. */
  lemma GroupingIdempotent(data: seq<Record>, keys: seq<string>)
    requires NoDup(keys) && forall k :: k in keys <==> k in Grouped(data)
    ensures Grouped(Flatten(Grouped(data), keys)) == Grouped(data)
  {
    var g := Grouped(data);
    var flat := Flatten(g, keys);
    FlattenPermutation(data, keys);
    SameKeys(flat, data);
    forall k | k in KeysOf(data)
      ensures Members(flat, k) == Members(data, k)
    {
      MembersOfFlatten(g, data, keys, k);
    }
  }

  /** Permutations have the same keys. */
  lemma SameKeys(a: seq<Record>, b: seq<Record>)
    requires multiset(a) == multiset(b)
    ensures KeysOf(a) == KeysOf(b)
  {
    forall r
      ensures r in a <==> r in b
    {
      assert r in a <==> r in multiset(a);
      assert r in b <==> r in multiset(b);
    }
  }
}
