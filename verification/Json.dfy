/**
 JSON documents as `serde_json` holds them when insertion order is preserved, and
 `sort_object_keys`, the normal form that forgets the order of object keys.
 */
module Json {
  import opened Ordering

  datatype Json =
    | Null
    | Bool(flag: bool)
    | Number(text: string)
    | String(text: string)
    | Array(items: seq<Json>)
    | Object(members: seq<Member>)

  datatype Member = Member(key: string, value: Json)

  ghost predicate DistinctKeys(members: seq<Member>) {
    forall i, j :: 0 <= i < j < |members| ==> members[i].key != members[j].key
  }

  /** No object at any depth repeats a key; a `serde_json::Map` cannot. */
  ghost predicate WellFormed(v: Json) {
    match v
    case Array(items) => forall i :: 0 <= i < |items| ==> WellFormed(items[i])
    case Object(members) => DistinctKeys(members) && forall i :: 0 <= i < |members| ==> WellFormed(members[i].value)
    case _ => true
  }

  predicate ByKey(a: Member, b: Member) {
    LexLeq(a.key, b.key)
  }

  lemma ByKeyIsPreorder()
    ensures TotalPreorder(ByKey)
  {
    LexIsTotalOrder();
  }

  /** `sort_object_keys`. */
  function SortKeys(v: Json): Json
    decreases v, 0
  {
    match v
    case Object(members) => Object(Sort(SortValues(members), ByKey))
    case Array(items) => Array(SortItems(items))
    case _ => v
  }

  function SortItems(items: seq<Json>): (r: seq<Json>)
    ensures |r| == |items|
    ensures forall i :: 0 <= i < |r| ==> r[i] == SortKeys(items[i])
    decreases items, 1
  {
    if items == [] then [] else [SortKeys(items[0])] + SortItems(items[1..])
  }

  function SortValues(members: seq<Member>): (r: seq<Member>)
    ensures |r| == |members|
    ensures forall i :: 0 <= i < |r| ==> r[i] == Member(members[i].key, SortKeys(members[i].value))
    decreases members, 1
  {
    if members == [] then []
    else [Member(members[0].key, SortKeys(members[0].value))] + SortValues(members[1..])
  }

  // ------------------------------------------------------------------
  // Equality up to the order of object keys
  // ------------------------------------------------------------------

  ghost function KeySet(members: seq<Member>): set<string> {
    set i | 0 <= i < |members| :: members[i].key
  }

  /** The two documents differ at most in the order of object keys, at any depth. */
  ghost predicate SameUpToKeyOrder(a: Json, b: Json) {
    match (a, b)
    case (Array(xs), Array(ys)) =>
      |xs| == |ys| && forall i :: 0 <= i < |xs| ==> SameUpToKeyOrder(xs[i], ys[i])
    case (Object(ms), Object(ns)) =>
      && KeySet(ms) == KeySet(ns)
      && forall i, j :: 0 <= i < |ms| && 0 <= j < |ns| && ms[i].key == ns[j].key ==>
           SameUpToKeyOrder(ms[i].value, ns[j].value)
    case _ => a == b
  }

  lemma KeyIndex(members: seq<Member>, key: string) returns (i: nat)
    requires key in KeySet(members)
    ensures i < |members| && members[i].key == key
  {
    i :| 0 <= i < |members| && members[i].key == key;
  }

  lemma ElementsOfSort(members: seq<Member>)
    ensures forall m :: m in Sort(members, ByKey) <==> m in members
    ensures KeySet(Sort(members, ByKey)) == KeySet(members)
  {
    var sorted := Sort(members, ByKey);
    SameElements(sorted, members);
    forall key ensures key in KeySet(sorted) <==> key in KeySet(members) {
      if key in KeySet(sorted) {
        var i := KeyIndex(sorted, key);
        assert sorted[i] in members;
      }
      if key in KeySet(members) {
        var i := KeyIndex(members, key);
        assert members[i] in sorted;
      }
    }
  }

  lemma {:induction false} DistinctMembers(members: seq<Member>)
    requires DistinctKeys(members)
    ensures forall m :: m in members ==> multiset(members)[m] == 1
  {
    if members != [] {
      assert members == [members[0]] + members[1..];
      DistinctMembers(members[1..]);
    }
  }

  lemma {:induction false} SameDistinctMembers(a: seq<Member>, b: seq<Member>)
    requires DistinctKeys(a) && DistinctKeys(b) && forall m :: m in a <==> m in b
    ensures multiset(a) == multiset(b)
  {
    DistinctMembers(a);
    DistinctMembers(b);
    forall m ensures multiset(a)[m] == multiset(b)[m] {
      assert m in a <==> m in multiset(a);
      assert m in b <==> m in multiset(b);
    }
  }

  lemma TwiceInMultiset(s: seq<Member>, i: nat, j: nat)
    requires i < j < |s| && s[i] == s[j]
    ensures multiset(s)[s[i]] >= 2
  {
    assert s == s[..i] + [s[i]] + s[i + 1..j] + [s[j]] + s[j + 1..];
  }

  lemma {:induction false} RearrangedKeysDistinct(a: seq<Member>, b: seq<Member>)
    requires DistinctKeys(a) && multiset(a) == multiset(b)
    ensures DistinctKeys(b)
  {
    SameElements(a, b);
    DistinctMembers(a);
    forall i, j | 0 <= i < j < |b| ensures b[i].key != b[j].key {
      if b[i].key == b[j].key {
        assert b[i] in a && b[j] in a;
        TwiceInMultiset(b, i, j);
      }
    }
  }

  lemma SortedMembersHead(p: seq<Member>, q: seq<Member>)
    requires p != [] && q != [] && p[0] in q && q[0] in p
    requires DistinctKeys(p) && Sorted(p, ByKey) && Sorted(q, ByKey)
    ensures p[0] == q[0]
  {
    LexIsTotalOrder();
    assert ByKey(p[0], q[0]) && ByKey(q[0], p[0]);
  }

  lemma {:induction false} SortedMembersUnique(p: seq<Member>, q: seq<Member>)
    requires DistinctKeys(p) && Sorted(p, ByKey) && Sorted(q, ByKey) && multiset(p) == multiset(q)
    ensures p == q
  {
    hide ByKey;
    SameElements(p, q);
    if p != [] {
      SortedMembersHead(p, q);
      DropFirst(p);
      DropFirst(q);
      SortedMembersUnique(p[1..], q[1..]);
      assert p == [p[0]] + p[1..] && q == [q[0]] + q[1..];
    }
  }

  /** Sorting by key is determined by the set of members when keys are distinct. */
  lemma {:induction false} SortByKeyIsUnique(a: seq<Member>, b: seq<Member>)
    requires DistinctKeys(a) && DistinctKeys(b)
    ensures Sort(a, ByKey) == Sort(b, ByKey) <==> SameMembers(a, b)
  {
    hide ByKey;
    ElementsOfSort(a);
    ElementsOfSort(b);
    if SameMembers(a, b) {
      SameDistinctMembers(a, b);
      ByKeyIsPreorder();
      SortIsSorted(a, ByKey);
      SortIsSorted(b, ByKey);
      RearrangedKeysDistinct(a, Sort(a, ByKey));
      SortedMembersUnique(Sort(a, ByKey), Sort(b, ByKey));
    }
  }

  ghost predicate SameMembers(a: seq<Member>, b: seq<Member>) {
    forall m :: m in a <==> m in b
  }

  /** Same keys, and values with the same normal form under each key. */
  ghost predicate ValuesMatch(ms: seq<Member>, ns: seq<Member>) {
    && KeySet(ms) == KeySet(ns)
    && forall i, j :: 0 <= i < |ms| && 0 <= j < |ns| && ms[i].key == ns[j].key ==>
         SortKeys(ms[i].value) == SortKeys(ns[j].value)
  }

  lemma {:induction false} SameMembersAfterSort(ms: seq<Member>, ns: seq<Member>)
    requires DistinctKeys(ms) && DistinctKeys(ns)
    ensures SameMembers(SortValues(ms), SortValues(ns)) <==> ValuesMatch(ms, ns)
  {
    hide SortKeys;
    var a, b := SortValues(ms), SortValues(ns);
    if SameMembers(a, b) {
      MatchingValues(ms, ns);
    }
    if ValuesMatch(ms, ns) {
      forall m ensures m in a <==> m in b {
        if m in a {
          var i :| 0 <= i < |a| && a[i] == m;
          assert ms[i].key in KeySet(ms);
          var j := KeyIndex(ns, ms[i].key);
          assert b[j] == m;
        }
        if m in b {
          var j :| 0 <= j < |b| && b[j] == m;
          assert ns[j].key in KeySet(ns);
          var i := KeyIndex(ms, ns[j].key);
          assert a[i] == m;
        }
      }
    }
  }

  lemma {:induction false} MatchingValues(ms: seq<Member>, ns: seq<Member>)
    requires DistinctKeys(ms) && DistinctKeys(ns)
    requires SameMembers(SortValues(ms), SortValues(ns))
    ensures ValuesMatch(ms, ns)
  {
    hide SortKeys;
    var a, b := SortValues(ms), SortValues(ns);
    forall i | 0 <= i < |ms| ensures exists j :: 0 <= j < |ns| && b[j] == a[i] && ns[j].key == ms[i].key {
      assert a[i] in b;
    }
    forall j | 0 <= j < |ns| ensures exists i :: 0 <= i < |ms| && a[i] == b[j] && ns[j].key == ms[i].key {
      assert b[j] in a;
    }
  }

  lemma {:induction false} ObjectNormalForm(ms: seq<Member>, ns: seq<Member>)
    requires DistinctKeys(ms) && DistinctKeys(ns)
    ensures SortKeys(Object(ms)) == SortKeys(Object(ns)) <==> ValuesMatch(ms, ns)
  {
    hide Sort, ByKey, SameMembers, ValuesMatch;
    assert DistinctKeys(SortValues(ms)) && DistinctKeys(SortValues(ns));
    SortByKeyIsUnique(SortValues(ms), SortValues(ns));
    SameMembersAfterSort(ms, ns);
    hide SortValues;
  }

  lemma {:induction false} ArrayNormalForm(xs: seq<Json>, ys: seq<Json>)
    ensures SortKeys(Array(xs)) == SortKeys(Array(ys)) <==>
            |xs| == |ys| && forall i :: 0 <= i < |xs| ==> SortKeys(xs[i]) == SortKeys(ys[i])
  {
    assert |SortItems(xs)| == |xs| && |SortItems(ys)| == |ys|;
    if |xs| == |ys| {
      assert SortItems(xs) == SortItems(ys) <==> forall i :: 0 <= i < |xs| ==> SortItems(xs)[i] == SortItems(ys)[i];
    }
  }

  /** Two documents have the same normal form exactly when they differ only in key order. */
  lemma {:induction false} SortKeysIsCompleteNormalForm(a: Json, b: Json)
    requires WellFormed(a) && WellFormed(b)
    ensures SortKeys(a) == SortKeys(b) <==> SameUpToKeyOrder(a, b)
  {
    if a.Array? && b.Array? {
      ArrayNormalForm(a.items, b.items);
      hide SortKeys;
      forall i | 0 <= i < |a.items| && i < |b.items|
        ensures SortKeys(a.items[i]) == SortKeys(b.items[i]) <==> SameUpToKeyOrder(a.items[i], b.items[i])
      {
        SortKeysIsCompleteNormalForm(a.items[i], b.items[i]);
      }
    } else if a.Object? && b.Object? {
      var ms, ns := a.members, b.members;
      ObjectNormalForm(ms, ns);
      hide SortKeys;
      forall i, j | 0 <= i < |ms| && 0 <= j < |ns|
        ensures SortKeys(ms[i].value) == SortKeys(ns[j].value) <==> SameUpToKeyOrder(ms[i].value, ns[j].value)
      {
        SortKeysIsCompleteNormalForm(ms[i].value, ns[j].value);
      }
    }
  }

  /** The normal form is itself a rearrangement of the document. */
  lemma {:induction false} SortKeysOnlyReorders(v: Json)
    requires WellFormed(v)
    ensures WellFormed(SortKeys(v)) && SameUpToKeyOrder(SortKeys(v), v)
  {
    match v {
      case Array(items) =>
        forall i | 0 <= i < |items|
            ensures WellFormed(SortKeys(items[i])) && SameUpToKeyOrder(SortKeys(items[i]), items[i]) {
          SortKeysOnlyReorders(items[i]);
        }
      case Object(members) =>
        forall i | 0 <= i < |members|
          ensures WellFormed(SortKeys(members[i].value))
              && SameUpToKeyOrder(SortKeys(members[i].value), members[i].value)
        {
          SortKeysOnlyReorders(members[i].value);
        }
        SortedMembersOnlyReorder(members);
      case _ =>
    }
  }

  lemma {:induction false} SortedMembersOnlyReorder(members: seq<Member>)
    requires DistinctKeys(members)
    requires forall i :: 0 <= i < |members| ==>
               WellFormed(SortKeys(members[i].value)) && SameUpToKeyOrder(SortKeys(members[i].value), members[i].value)
    ensures var sorted := Sort(SortValues(members), ByKey);
            && DistinctKeys(sorted)
            && KeySet(sorted) == KeySet(members)
            && (forall i :: 0 <= i < |sorted| ==> WellFormed(sorted[i].value))
            && forall i, j :: 0 <= i < |sorted| && 0 <= j < |members| && sorted[i].key == members[j].key ==>
                 SameUpToKeyOrder(sorted[i].value, members[j].value)
  {
    hide Sort, ByKey, WellFormed, SameUpToKeyOrder;
    var values := SortValues(members);
    var sorted := Sort(values, ByKey);
    ElementsOfSort(values);
    RearrangedKeysDistinct(values, sorted);
    assert KeySet(values) == KeySet(members);
    forall i | 0 <= i < |sorted| ensures exists k :: 0 <= k < |members| && sorted[i] == values[k] {
      assert sorted[i] in values;
    }
  }

  lemma {:induction false} SortKeysIsIdempotent(v: Json)
    requires WellFormed(v)
    ensures SortKeys(SortKeys(v)) == SortKeys(v)
  {
    SortKeysOnlyReorders(v);
    SortKeysIsCompleteNormalForm(SortKeys(v), v);
  }
}
