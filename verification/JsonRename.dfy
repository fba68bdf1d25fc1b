/**
 Declarative key renaming on decoded JSON (transformValue in pkg/proxy/handler.go). The code ranges
 over a Go map, whose order is unspecified: when two keys of an object get the same new name, the
 one visited last wins. An `Order` fixes the order of every object's loop; `Renames` describes the
 results without orders, and the two are shown to allow the same results.
 */
module JsonRename {
  import opened Options

  datatype Scalar = Null | Bool(b: bool) | Number(n: real) | String(s: string)

  datatype Json = Object(fields: map<string, Json>) | Array(items: seq<Json>) | Value(scalar: Scalar)

  type Mapping = map<string, string>

  function NewKey(mapping: Mapping, key: string): string { if key in mapping then mapping[key] else key }

  ghost predicate Renames(val: Json, mapping: Mapping, out: Json)
  {
    match val
    case Value(_) => out == val
    case Array(items) =>
      && out.Array? && |out.items| == |items|
      && forall i :: 0 <= i < |items| ==> Renames(items[i], mapping, out.items[i])
    case Object(fields) =>
      && out.Object?
      && (forall k :: k in fields ==> NewKey(mapping, k) in out.fields)
      && (forall n :: n in out.fields ==>
            exists k :: k in fields && NewKey(mapping, k) == n && Renames(fields[k], mapping, out.fields[n]))
  }

  // ----- the loop, in a given order -----

  /** The order in which the loop over an object visits its keys, with the orders inside its values. */
  datatype Order = Order(keys: seq<string>, below: map<string, Order>, items: seq<Order>)

  ghost predicate Distinct(keys: seq<string>) { forall i, j :: 0 <= i < j < |keys| ==> keys[i] != keys[j] }

  /** Every key of every object is visited exactly once. */
  ghost predicate Fits(val: Json, o: Order) {
    match val
    case Value(_) => true
    case Array(items) => |o.items| == |items| && forall i :: 0 <= i < |items| ==> Fits(items[i], o.items[i])
    case Object(fields) =>
      && Distinct(o.keys) && (forall k :: k in o.keys <==> k in fields)
      && forall k :: k in fields ==> k in o.below && Fits(fields[k], o.below[k])
  }

  ghost function TransformBy(val: Json, mapping: Mapping, o: Order): Json
    requires Fits(val, o)
  {
    match val
    case Value(_) => val
    case Array(items) => Array(seq(|items|, i requires 0 <= i < |items| => TransformBy(items[i], mapping, o.items[i])))
    case Object(fields) =>
      Object(Stored(o.keys, map k | k in fields :: TransformBy(fields[k], mapping, o.below[k]), mapping))
  }

  /** The new object when the loop has visited these keys, each with its transformed value. */
  ghost function Stored(keys: seq<string>, values: map<string, Json>, mapping: Mapping): map<string, Json>
    requires forall k :: k in keys ==> k in values
  {
    if keys == [] then map[]
    else
      var key := keys[|keys| - 1];
      Stored(keys[..|keys| - 1], values, mapping)[NewKey(mapping, key) := values[key]]
  }

  /** transformValue: the recursion and its two loops. */
  method TransformValue(val: Json, mapping: Mapping, o: Order) returns (out: Json)
    requires Fits(val, o)
    ensures out == TransformBy(val, mapping, o)
    decreases val, 1
  {
    match val
    case Object(fields) =>
      var res := TransformObject(val, fields, mapping, o);
      out := Object(res);
    case Array(items) =>
      var res := [];
      for i := 0 to |items|
        invariant |res| == i
        invariant forall j :: 0 <= j < i ==> res[j] == TransformBy(items[j], mapping, o.items[j])
      {
        var value := TransformValue(items[i], mapping, o.items[i]);
        res := res + [value];
      }
      out := Array(res);
    case Value(_) =>
      out := val;
  }

  method TransformObject(ghost val: Json, fields: map<string, Json>, mapping: Mapping, o: Order)
    returns (res: map<string, Json>)
    requires val == Object(fields) && Fits(val, o)
    ensures Object(res) == TransformBy(val, mapping, o)
    decreases val, 0
  {
    res := map[];
    ghost var values := map k | k in fields :: TransformBy(fields[k], mapping, o.below[k]);
    assert o.keys[..|o.keys|] == o.keys && forall i :: 0 <= i < |o.keys| ==> o.keys[i] in fields;
    for i := 0 to |o.keys|
      invariant res == Stored(o.keys[..i], values, mapping)
    {
      var key := o.keys[i];
      var newKey := key;
      if key in mapping {
        newKey := mapping[key];
      }
      var value := TransformValue(fields[key], mapping, o.below[key]);
      res := res[newKey := value];
      VisitNext(o.keys, i, values, mapping);
    }
  }

  lemma VisitNext(keys: seq<string>, i: nat, values: map<string, Json>, mapping: Mapping)
    requires i < |keys| && forall k :: k in keys ==> k in values
    ensures (forall k :: k in keys[..i] ==> k in values) && (forall k :: k in keys[..i + 1] ==> k in values)
    ensures Stored(keys[..i + 1], values, mapping) == Stored(keys[..i], values, mapping)[NewKey(mapping, keys[i]) := values[keys[i]]]
  {
    assert keys[..i + 1][..i] == keys[..i];
  }

  // ----- the results of all orders are exactly the renamings -----

  /** Visiting more keys overwrites what the earlier ones left. */
  lemma {:induction false} LaterVisitsWin(first: seq<string>, last: seq<string>, values: map<string, Json>, mapping: Mapping)
    requires forall k :: k in first + last ==> k in values
    ensures (forall k :: k in first ==> k in values) && (forall k :: k in last ==> k in values)
    ensures Stored(first + last, values, mapping) == Stored(first, values, mapping) + Stored(last, values, mapping)
    decreases |last|
  {
    assert forall k :: k in first || k in last ==> k in first + last;
    if last == [] {
      assert first + last == first;
    } else {
      var init := last[..|last| - 1];
      assert (first + last)[..|first + last| - 1] == first + init;
      LaterVisitsWin(first, init, values, mapping);
    }
  }

  /** Every key's name is there, with the value of one of the keys that get it. */
  lemma {:induction false} StoredByKeys(keys: seq<string>, values: map<string, Json>, mapping: Mapping)
    requires forall k :: k in keys ==> k in values
    ensures var res := Stored(keys, values, mapping);
            && (forall k :: k in keys ==> NewKey(mapping, k) in res)
            && (forall n :: n in res ==> exists k :: k in keys && NewKey(mapping, k) == n && res[n] == values[k])
    decreases |keys|
  {
    if keys != [] {
      var init := keys[..|keys| - 1];
      assert keys == init + [keys[|keys| - 1]];
      StoredByKeys(init, values, mapping);
    }
  }

  /** Whatever the orders, the result is a renaming. */
  lemma {:induction false} EveryOrderRenames(val: Json, mapping: Mapping, o: Order)
    requires Fits(val, o)
    ensures Renames(val, mapping, TransformBy(val, mapping, o))
  {
    match val
    case Value(_) =>
    case Array(items) =>
      forall i | 0 <= i < |items| ensures Renames(items[i], mapping, TransformBy(items[i], mapping, o.items[i])) {
        EveryOrderRenames(items[i], mapping, o.items[i]);
      }
    case Object(fields) =>
      var values := map k | k in fields :: TransformBy(fields[k], mapping, o.below[k]);
      forall k | k in fields ensures Renames(fields[k], mapping, values[k]) {
        EveryOrderRenames(fields[k], mapping, o.below[k]);
      }
      StoredValuesRename(fields, mapping, o.keys, values);
  }

  lemma StoredValuesRename(fields: map<string, Json>, mapping: Mapping, keys: seq<string>, values: map<string, Json>)
    requires values.Keys == fields.Keys && forall k :: k in keys <==> k in fields
    requires forall k :: k in fields ==> Renames(fields[k], mapping, values[k])
    ensures Renames(Object(fields), mapping, Object(Stored(keys, values, mapping)))
  {
    StoredByKeys(keys, values, mapping);
    var res := Stored(keys, values, mapping);
    forall n | n in res
      ensures exists k :: k in fields && NewKey(mapping, k) == n && Renames(fields[k], mapping, res[n])
    {
      var k :| k in keys && NewKey(mapping, k) == n && res[n] == values[k];
      assert Renames(fields[k], mapping, res[n]);
    }
  }

  lemma {:induction false} Enumerate(s: set<string>) returns (q: seq<string>)
    ensures Distinct(q) && forall k :: k in q <==> k in s
    decreases s
  {
    if s == {} {
      q := [];
    } else {
      var k :| k in s;
      var rest := Enumerate(s - {k});
      q := [k] + rest;
    }
  }

  lemma {:induction false} SomeOrder(val: Json) returns (o: Order)
    ensures Fits(val, o)
  {
    match val
    case Value(_) => o := Order([], map[], []);
    case Array(items) =>
      var os := [];
      for i := 0 to |items|
        invariant |os| == i && forall j :: 0 <= j < i ==> Fits(items[j], os[j])
      {
        var below := SomeOrder(items[i]);
        os := os + [below];
      }
      o := Order([], map[], os);
    case Object(fields) =>
      var keys := Enumerate(fields.Keys);
      forall k | k in fields ensures exists below :: Fits(fields[k], below) { var below := SomeOrder(fields[k]); }
      o := Order(keys, map k | k in fields :: var below :| Fits(fields[k], below); below, []);
  }

  /** And every renaming is the result of some order. */
  lemma {:induction false} EveryRenamingIsReached(val: Json, mapping: Mapping, out: Json) returns (o: Order)
    requires Renames(val, mapping, out)
    ensures Fits(val, o) && TransformBy(val, mapping, o) == out
    decreases val, 1
  {
    match val
    case Value(_) => o := Order([], map[], []);
    case Array(items) =>
      var os := [];
      for i := 0 to |items|
        invariant |os| == i
        invariant forall j :: 0 <= j < i ==> Fits(items[j], os[j]) && TransformBy(items[j], mapping, os[j]) == out.items[j]
      {
        var below := EveryRenamingIsReached(items[i], mapping, out.items[i]);
        os := os + [below];
      }
      o := Order([], map[], os);
    case Object(fields) =>
      o := EveryObjectIsReached(val, fields, mapping, out);
  }

  /** An order inside a value that makes it v, if the value can become v at all. */
  ghost predicate LeadsTo(val: Json, mapping: Mapping, below: Order, v: Json) {
    Fits(val, below) && (Renames(val, mapping, v) ==> TransformBy(val, mapping, below) == v)
  }

  lemma {:induction false} EveryObjectIsReached(val: Json, fields: map<string, Json>, mapping: Mapping, out: Json)
    returns (o: Order)
    requires val == Object(fields) && Renames(val, mapping, out)
    ensures Fits(val, o) && TransformBy(val, mapping, o) == out
    decreases val, 0
  {
    var res := out.fields;
    forall k | k in fields ensures exists below :: LeadsTo(fields[k], mapping, below, res[NewKey(mapping, k)]) {
      var below;
      if Renames(fields[k], mapping, res[NewKey(mapping, k)]) {
        below := EveryRenamingIsReached(fields[k], mapping, res[NewKey(mapping, k)]);
      } else {
        below := SomeOrder(fields[k]);
      }
      assert LeadsTo(fields[k], mapping, below, res[NewKey(mapping, k)]);
    }
    var below := map k | k in fields :: var b :| LeadsTo(fields[k], mapping, b, res[NewKey(mapping, k)]); b;
    assert forall k :: k in fields ==> LeadsTo(fields[k], mapping, below[k], res[NewKey(mapping, k)]);
    var values := map k | k in fields :: TransformBy(fields[k], mapping, below[k]);
    forall n | n in res ensures HasWinner(values, mapping, res[n], n) {
      var k :| k in fields && NewKey(mapping, k) == n && Renames(fields[k], mapping, res[n]);
      assert values[k] == res[n];
    }
    var keys := WinnersLast(values, mapping, res);
    o := Order(keys, below, []);
  }

  /** Keys that have the right values for their names, at least one for each name, store res. */
  lemma WinnersStore(keys: seq<string>, values: map<string, Json>, mapping: Mapping, res: map<string, Json>)
    requires forall k :: k in keys ==> k in values && NewKey(mapping, k) in res && values[k] == res[NewKey(mapping, k)]
    requires forall n :: n in res ==> exists k :: k in keys && NewKey(mapping, k) == n
    ensures Stored(keys, values, mapping) == res
  {
    StoredByKeys(keys, values, mapping);
  }

  ghost predicate HasWinner(values: map<string, Json>, mapping: Mapping, v: Json, n: string) {
    exists k :: k in values && NewKey(mapping, k) == n && values[k] == v
  }

  /** So does every order in which they come last. */
  lemma WinnersLast(values: map<string, Json>, mapping: Mapping, res: map<string, Json>) returns (keys: seq<string>)
    requires forall k :: k in values ==> NewKey(mapping, k) in res
    requires forall n :: n in res ==> HasWinner(values, mapping, res[n], n)
    ensures Distinct(keys) && (forall k :: k in keys <==> k in values) && Stored(keys, values, mapping) == res
  {
    var winners := set k | k in values && values[k] == res[NewKey(mapping, k)];
    var losers := Enumerate(values.Keys - winners);
    var last := Enumerate(winners);
    keys := losers + last;
    DistinctTogether(losers, last);
    forall n | n in res ensures exists k :: k in last && NewKey(mapping, k) == n {
      assert HasWinner(values, mapping, res[n], n);
      var k :| k in values && NewKey(mapping, k) == n && values[k] == res[n];
      assert k in last;
    }
    WinnersStore(last, values, mapping, res);
    LaterVisitsWin(losers, last, values, mapping);
    NamesStored(losers, values, mapping, res);
  }

  lemma DistinctTogether(a: seq<string>, b: seq<string>)
    requires Distinct(a) && Distinct(b) && forall k :: k in a ==> k !in b
    ensures Distinct(a + b) && forall k :: k in a + b <==> k in a || k in b
  {
    forall i, j | 0 <= i < j < |a + b| ensures (a + b)[i] != (a + b)[j] {
      if i < |a| <= j { assert (a + b)[i] in a && (a + b)[j] in b; }
    }
  }

  lemma NamesStored(keys: seq<string>, values: map<string, Json>, mapping: Mapping, res: map<string, Json>)
    requires forall k :: k in keys ==> k in values && NewKey(mapping, k) in res
    ensures Stored(keys, values, mapping) + res == res
  {
    StoredByKeys(keys, values, mapping);
  }

  // ----- when the result is determined -----

  /** No two keys of an object get the same new name. */
  ghost predicate KeysStayApart(fields: map<string, Json>, mapping: Mapping) {
    forall j, k :: j in fields && k in fields && NewKey(mapping, j) == NewKey(mapping, k) ==> j == k
  }

  ghost predicate NoCollision(val: Json, mapping: Mapping) {
    match val
    case Value(_) => true
    case Array(items) => forall i :: 0 <= i < |items| ==> NoCollision(items[i], mapping)
    case Object(fields) =>
      KeysStayApart(fields, mapping) && forall k :: k in fields ==> NoCollision(fields[k], mapping)
  }

  /** The result's entry for a key is a renaming of that key's value. */
  lemma EntryOf(fields: map<string, Json>, mapping: Mapping, out: Json, k: string)
    requires Renames(Object(fields), mapping, out) && KeysStayApart(fields, mapping) && k in fields
    ensures NewKey(mapping, k) in out.fields
    ensures Renames(fields[k], mapping, out.fields[NewKey(mapping, k)])
  {
    var n := NewKey(mapping, k);
    var j :| j in fields && NewKey(mapping, j) == n && Renames(fields[j], mapping, out.fields[n]);
    assert j == k;
  }

  /** Every renaming of x is every renaming of y: the values under keys that collide must themselves agree. */
  ghost predicate Agree(x: Json, y: Json, mapping: Mapping) {
    match x
    case Value(_) => y == x
    case Array(items) =>
      && y.Array? && |y.items| == |items|
      && forall i :: 0 <= i < |items| ==> Agree(items[i], y.items[i], mapping)
    case Object(fields) =>
      && y.Object? && NewKeys(y.fields, mapping) == NewKeys(fields, mapping)
      && forall j, k :: j in fields && k in y.fields && NewKey(mapping, j) == NewKey(mapping, k) ==>
           Agree(fields[j], y.fields[k], mapping)
  }

  ghost function NewKeys(fields: map<string, Json>, mapping: Mapping): set<string> {
    set k | k in fields :: NewKey(mapping, k)
  }

  lemma NamesOfRenaming(fields: map<string, Json>, mapping: Mapping, out: Json)
    requires Renames(Object(fields), mapping, out)
    ensures out.Object? && out.fields.Keys == NewKeys(fields, mapping)
  {
  }

  lemma {:induction false} AgreeingTreesRenameAlike(x: Json, y: Json, mapping: Mapping, a: Json, b: Json)
    requires Agree(x, y, mapping) && Renames(x, mapping, a) && Renames(y, mapping, b)
    ensures a == b
    decreases x, 1
  {
    match x
    case Value(_) =>
    case Array(_) => AgreeingItems(x, y, mapping, a, b);
    case Object(_) => AgreeingFields(x, y, mapping, a, b);
  }

  lemma {:induction false} AgreeingItems(x: Json, y: Json, mapping: Mapping, a: Json, b: Json)
    requires x.Array? && Agree(x, y, mapping) && Renames(x, mapping, a) && Renames(y, mapping, b)
    ensures a == b
    decreases x, 0
  {
    forall i | 0 <= i < |x.items| ensures a.items[i] == b.items[i] {
      AgreeingTreesRenameAlike(x.items[i], y.items[i], mapping, a.items[i], b.items[i]);
    }
  }

  lemma {:induction false} AgreeingFields(x: Json, y: Json, mapping: Mapping, a: Json, b: Json)
    requires x.Object? && Agree(x, y, mapping) && Renames(x, mapping, a) && Renames(y, mapping, b)
    ensures a == b
    decreases x, 0
  {
    NamesOfRenaming(x.fields, mapping, a);
    NamesOfRenaming(y.fields, mapping, b);
    forall n | n in a.fields ensures a.fields[n] == b.fields[n] {
      var j := Winner(x.fields, mapping, a.fields, n);
      var k := Winner(y.fields, mapping, b.fields, n);
      AgreeingTreesRenameAlike(x.fields[j], y.fields[k], mapping, a.fields[n], b.fields[n]);
    }
    EqualEntries(a.fields, b.fields);
  }

  lemma EqualEntries(a: map<string, Json>, b: map<string, Json>)
    requires a.Keys == b.Keys && forall n :: n in a ==> a[n] == b[n]
    ensures a == b
  {
  }

  /** A key whose value went under the name n. */
  ghost function Winner(fields: map<string, Json>, mapping: Mapping, out: map<string, Json>, n: string): (k: string)
    requires Renames(Object(fields), mapping, Object(out)) && n in out
    ensures k in fields && NewKey(mapping, k) == n && Renames(fields[k], mapping, out[n])
  {
    var k :| k in fields && NewKey(mapping, k) == n && Renames(fields[k], mapping, out[n]);
    k
  }

  lemma SomeRenaming(val: Json, mapping: Mapping) returns (out: Json)
    ensures Renames(val, mapping, out)
  {
    var o := SomeOrder(val);
    EveryOrderRenames(val, mapping, o);
    out := TransformBy(val, mapping, o);
  }

  /** Any key can be the one whose value survives. */
  lemma AnyKeyCanWin(fields: map<string, Json>, mapping: Mapping, k: string, v: Json) returns (out: Json)
    requires k in fields && Renames(fields[k], mapping, v)
    ensures Renames(Object(fields), mapping, out) && out.fields[NewKey(mapping, k)] == v
  {
    var some := SomeRenaming(Object(fields), mapping);
    out := Object(some.fields[NewKey(mapping, k) := v]);
  }

  lemma AnyItemCanBe(items: seq<Json>, mapping: Mapping, i: nat, v: Json) returns (out: Json)
    requires i < |items| && Renames(items[i], mapping, v)
    ensures Renames(Array(items), mapping, out) && out.items[i] == v
  {
    var some := SomeRenaming(Array(items), mapping);
    out := Array(some.items[i := v]);
  }

  /** Trees that do not agree have renamings that differ. */
  lemma {:induction false} DisagreeingTreesDiffer(x: Json, y: Json, mapping: Mapping) returns (a: Json, b: Json)
    requires !Agree(x, y, mapping)
    ensures Renames(x, mapping, a) && Renames(y, mapping, b) && a != b
    decreases x, 1
  {
    if x.Object? && y.Object? && NewKeys(x.fields, mapping) == NewKeys(y.fields, mapping) {
      a, b := DisagreeingEntries(x, y, mapping);
    } else if x.Array? && y.Array? && |x.items| == |y.items| {
      a, b := DisagreeingItems(x, y, mapping);
    } else {
      a := SomeRenaming(x, mapping);
      b := SomeRenaming(y, mapping);
      if x.Object? && y.Object? {
        NamesOfRenaming(x.fields, mapping, a);
        NamesOfRenaming(y.fields, mapping, b);
      }
    }
  }

  lemma {:induction false} DisagreeingEntries(x: Json, y: Json, mapping: Mapping) returns (a: Json, b: Json)
    requires !Agree(x, y, mapping) && x.Object? && y.Object? && NewKeys(x.fields, mapping) == NewKeys(y.fields, mapping)
    ensures Renames(x, mapping, a) && Renames(y, mapping, b) && a != b
    decreases x, 0
  {
    var j, k :| j in x.fields && k in y.fields && NewKey(mapping, j) == NewKey(mapping, k)
                && !Agree(x.fields[j], y.fields[k], mapping);
    var v, w := DisagreeingTreesDiffer(x.fields[j], y.fields[k], mapping);
    a := AnyKeyCanWin(x.fields, mapping, j, v);
    b := AnyKeyCanWin(y.fields, mapping, k, w);
  }

  lemma {:induction false} DisagreeingItems(x: Json, y: Json, mapping: Mapping) returns (a: Json, b: Json)
    requires !Agree(x, y, mapping) && x.Array? && y.Array? && |x.items| == |y.items|
    ensures Renames(x, mapping, a) && Renames(y, mapping, b) && a != b
    decreases x, 0
  {
    var i :| 0 <= i < |x.items| && !Agree(x.items[i], y.items[i], mapping);
    var v, w := DisagreeingTreesDiffer(x.items[i], y.items[i], mapping);
    a := AnyItemCanBe(x.items, mapping, i, v);
    b := AnyItemCanBe(y.items, mapping, i, w);
  }

  /** No two orders give different results. */
  ghost predicate OrderDoesNotMatter(val: Json, mapping: Mapping) {
    forall o, o' :: Fits(val, o) && Fits(val, o') ==> TransformBy(val, mapping, o) == TransformBy(val, mapping, o')
  }

  /**
   The result depends on the iteration order exactly if the tree does not agree with itself: some
   object, at any depth, has two keys with one new name whose values do not rename alike.
   */
  lemma OrderDoesNotMatterIff(val: Json, mapping: Mapping)
    ensures OrderDoesNotMatter(val, mapping) <==> Agree(val, val, mapping)
  {
    if Agree(val, val, mapping) {
      forall o, o' | Fits(val, o) && Fits(val, o') ensures TransformBy(val, mapping, o) == TransformBy(val, mapping, o') {
        EveryOrderRenames(val, mapping, o);
        EveryOrderRenames(val, mapping, o');
        AgreeingTreesRenameAlike(val, val, mapping, TransformBy(val, mapping, o), TransformBy(val, mapping, o'));
      }
    } else {
      DisagreementShows(val, mapping);
    }
  }

  lemma DisagreementShows(val: Json, mapping: Mapping)
    requires !Agree(val, val, mapping)
    ensures !OrderDoesNotMatter(val, mapping)
  {
    var a, b := DisagreeingTreesDiffer(val, val, mapping);
    var o := EveryRenamingIsReached(val, mapping, a);
    var o' := EveryRenamingIsReached(val, mapping, b);
  }

  lemma {:induction false} NoCollisionAgrees(val: Json, mapping: Mapping)
    requires NoCollision(val, mapping)
    ensures Agree(val, val, mapping)
  {
    match val
    case Value(_) =>
    case Array(items) =>
      forall i | 0 <= i < |items| ensures Agree(items[i], items[i], mapping) { NoCollisionAgrees(items[i], mapping); }
    case Object(fields) =>
      forall k | k in fields ensures Agree(fields[k], fields[k], mapping) { NoCollisionAgrees(fields[k], mapping); }
  }

  /** In particular, without collisions the result does not depend on the iteration order. */
  lemma ResultIsUnique(val: Json, mapping: Mapping, a: Json, b: Json)
    requires NoCollision(val, mapping) && Renames(val, mapping, a) && Renames(val, mapping, b)
    ensures a == b
  {
    NoCollisionAgrees(val, mapping);
    AgreeingTreesRenameAlike(val, val, mapping, a, b);
  }

  /** An object keeps its number of entries exactly when its keys stay apart. */
  lemma EntriesKeptIff(fields: map<string, Json>, mapping: Mapping, out: Json)
    requires Renames(Object(fields), mapping, out)
    ensures |out.fields| <= |fields|
    ensures |out.fields| == |fields| <==> KeysStayApart(fields, mapping)
  {
    var names := set k | k in fields.Keys :: NewKey(mapping, k);
    assert names == out.fields.Keys;
    ImageSize(fields.Keys, mapping);
    assert |out.fields| == |out.fields.Keys| && |fields| == |fields.Keys|;
  }

  lemma {:induction false} ImageSize(keys: set<string>, mapping: Mapping)
    ensures var names := set k | k in keys :: NewKey(mapping, k);
            && |names| <= |keys|
            && (|names| == |keys| <==>
                 forall j, k :: j in keys && k in keys && NewKey(mapping, j) == NewKey(mapping, k) ==> j == k)
    decreases keys
  {
    if keys != {} {
      var q :| q in keys;
      var rest := keys - {q};
      ImageSize(rest, mapping);
      var names, fewer := set k | k in keys :: NewKey(mapping, k), set k | k in rest :: NewKey(mapping, k);
      assert names == fewer + {NewKey(mapping, q)};
      if NewKey(mapping, q) in fewer {
        assert names == fewer;
        var j :| j in rest && NewKey(mapping, j) == NewKey(mapping, q);
        assert j in keys && j != q;
      } else {
        assert forall j :: j in rest ==> NewKey(mapping, j) != NewKey(mapping, q);
      }
    }
  }

  /** Two keys with the same new name and different values: the loop's order decides which value stays. */
  lemma CollisionIsOrderDependent(j: string, k: string, v: Scalar, w: Scalar, mapping: Mapping) returns (o: Order, o': Order)
    requires j != k && NewKey(mapping, j) == NewKey(mapping, k) && v != w
    ensures var (val, n) := (Object(map[j := Value(v), k := Value(w)]), NewKey(mapping, j));
            && Fits(val, o) && TransformBy(val, mapping, o) == Object(map[n := Value(w)])
            && Fits(val, o') && TransformBy(val, mapping, o') == Object(map[n := Value(v)])
  {
    var (fields, n) := (map[j := Value(v), k := Value(w)], NewKey(mapping, j));
    assert j in fields && Renames(fields[j], mapping, Value(v));
    assert k in fields && Renames(fields[k], mapping, Value(w));
    o := EveryRenamingIsReached(Object(fields), mapping, Object(map[n := Value(w)]));
    o' := EveryRenamingIsReached(Object(fields), mapping, Object(map[n := Value(v)]));
  }

  // ----- positions -----

  datatype Hop = Key(key: string) | Index(i: nat)

  /** The value at a path, if the path exists. */
  function At(val: Json, path: seq<Hop>): Option<Json> {
    if path == [] then Some(val)
    else match (val, path[0])
      case (Object(fields), Key(k)) => if k in fields then At(fields[k], path[1..]) else None
      case (Array(items), Index(i)) => if i < |items| then At(items[i], path[1..]) else None
      case _ => None
  }

  function NewPath(path: seq<Hop>, mapping: Mapping): seq<Hop> {
    if path == [] then []
    else [if path[0].Key? then Key(NewKey(mapping, path[0].key)) else path[0]] + NewPath(path[1..], mapping)
  }

  /** At any depth: every value is kept, at its renamed path, array positions unchanged. */
  lemma {:induction false} ValuesAreKept(val: Json, mapping: Mapping, out: Json, path: seq<Hop>)
    requires NoCollision(val, mapping) && Renames(val, mapping, out) && At(val, path).Some?
    ensures At(out, NewPath(path, mapping)).Some?
    ensures Renames(At(val, path).value, mapping, At(out, NewPath(path, mapping)).value)
    decreases |path|
  {
    if path != [] {
      assert NewPath(path, mapping)[1..] == NewPath(path[1..], mapping);
      match val {
        case Object(fields) =>
          var k := path[0].key;
          EntryOf(fields, mapping, out, k);
          ValuesAreKept(fields[k], mapping, out.fields[NewKey(mapping, k)], path[1..]);
        case Array(items) =>
          ValuesAreKept(items[path[0].i], mapping, out.items[path[0].i], path[1..]);
      }
    }
  }

  /** And nothing is invented: every path of the result is the renamed path of an original one. */
  lemma {:induction false} NothingIsInvented(val: Json, mapping: Mapping, out: Json, path: seq<Hop>) returns (p: seq<Hop>)
    requires Renames(val, mapping, out) && At(out, path).Some?
    ensures NewPath(p, mapping) == path && At(val, p).Some?
    decreases |path|
  {
    p := [];
    if path != [] {
      match val {
        case Object(fields) =>
          var n := path[0].key;
          var k :| k in fields && NewKey(mapping, k) == n && Renames(fields[k], mapping, out.fields[n]);
          var rest := NothingIsInvented(fields[k], mapping, out.fields[n], path[1..]);
          p := [Key(k)] + rest;
          assert p[1..] == rest && path == [path[0]] + path[1..];
        case Array(items) =>
          var i := path[0].i;
          var rest := NothingIsInvented(items[i], mapping, out.items[i], path[1..]);
          p := [Index(i)] + rest;
          assert p[1..] == rest && path == [path[0]] + path[1..];
      }
    }
  }

  // ----- renaming back -----

  /** inv undoes mapping, which is therefore injective. */
  ghost predicate IsInverse(mapping: Mapping, inv: Mapping) {
    inv.Keys == mapping.Values && forall k :: k in mapping ==> inv[mapping[k]] == k
  }

  /** No key that is left alone looks like a renamed one. */
  ghost predicate AvoidsRange(val: Json, mapping: Mapping) {
    match val
    case Value(_) => true
    case Array(items) => forall i :: 0 <= i < |items| ==> AvoidsRange(items[i], mapping)
    case Object(fields) =>
      && (forall k :: k in fields && k !in mapping ==> k !in mapping.Values)
      && (forall k :: k in fields ==> AvoidsRange(fields[k], mapping))
  }

  /** Injective mappings of such trees do not collide. */
  lemma {:induction false} AvoidingTreesDoNotCollide(val: Json, mapping: Mapping, inv: Mapping)
    requires IsInverse(mapping, inv) && AvoidsRange(val, mapping)
    ensures NoCollision(val, mapping)
  {
    match val
    case Value(_) =>
    case Array(items) =>
      forall i | 0 <= i < |items| ensures NoCollision(items[i], mapping) {
        AvoidingTreesDoNotCollide(items[i], mapping, inv);
      }
    case Object(fields) =>
      forall k | k in fields ensures NoCollision(fields[k], mapping) {
        AvoidingTreesDoNotCollide(fields[k], mapping, inv);
      }
      forall k | k in fields ensures NewKey(inv, NewKey(mapping, k)) == k {
        KeyComesBackIff(mapping, inv, k);
      }
  }

  lemma KeyComesBackIff(mapping: Mapping, inv: Mapping, k: string)
    requires IsInverse(mapping, inv)
    ensures NewKey(inv, NewKey(mapping, k)) == k <==> k in mapping || k !in mapping.Values
  {
    if k !in mapping && k in mapping.Values {
      var j :| j in mapping && mapping[j] == k;
      assert inv[k] == j;
    }
  }

  lemma NothingMapsBackToLookalike(mapping: Mapping, inv: Mapping, k: string, n: string)
    requires IsInverse(mapping, inv) && k !in mapping && k in mapping.Values
    ensures NewKey(inv, n) != k
  {
    if n in inv {
      var j :| j in mapping && mapping[j] == n;
      assert inv[n] == j;
    }
  }

  /** A key that is not renamed but looks renamed is missing after the way back. */
  lemma LookalikeIsLost(out: Json, mapping: Mapping, inv: Mapping, back: Json, k: string)
    requires IsInverse(mapping, inv) && out.Object? && Renames(out, inv, back)
    requires k !in mapping && k in mapping.Values
    ensures back.Object? && k !in back.fields
  {
    forall n | n in out.fields ensures NewKey(inv, n) != k { NothingMapsBackToLookalike(mapping, inv, k, n); }
  }

  ghost predicate KeysComeBack(fields: map<string, Json>, mapping: Mapping, inv: Mapping) {
    forall k :: k in fields ==> NewKey(inv, NewKey(mapping, k)) == k
  }

  /** If its keys come back, an object's result has them as names, one each. */
  lemma NamesGoBack(fields: map<string, Json>, mapping: Mapping, inv: Mapping, out: Json)
    requires KeysComeBack(fields, mapping, inv) && Renames(Object(fields), mapping, out)
    ensures KeysStayApart(fields, mapping) && KeysStayApart(out.fields, inv)
    ensures forall n :: n in out.fields ==> NewKey(inv, n) in fields && NewKey(mapping, NewKey(inv, n)) == n
  {
    forall n | n in out.fields ensures NewKey(inv, n) in fields && NewKey(mapping, NewKey(inv, n)) == n {
      var k :| k in fields && NewKey(mapping, k) == n && Renames(fields[k], mapping, out.fields[n]);
    }
  }

  lemma NoKeyIsAdded(fields: map<string, Json>, inv: Mapping, out: Json, back: Json, k: string)
    requires out.Object? && forall n :: n in out.fields ==> NewKey(inv, n) in fields
    requires Renames(out, inv, back) && back.Object? && k in back.fields
    ensures k in fields
  {
    var n :| n in out.fields && NewKey(inv, n) == k && Renames(out.fields[n], inv, back.fields[k]);
  }

  /**
   Renaming with a mapping and then with its inverse restores the tree exactly when no unmapped
   key of the tree is in the mapping's range.
   */
  lemma {:induction false} RoundTripIff(val: Json, mapping: Mapping, inv: Mapping, out: Json, back: Json)
    requires IsInverse(mapping, inv) && Renames(val, mapping, out) && Renames(out, inv, back)
    ensures back == val <==> AvoidsRange(val, mapping)
    decreases val, 1
  {
    match val
    case Value(_) =>
    case Array(items) =>
      forall i | 0 <= i < |items| ensures back.items[i] == items[i] <==> AvoidsRange(items[i], mapping) {
        RoundTripIff(items[i], mapping, inv, out.items[i], back.items[i]);
      }
      assert back.items == items <==> forall i :: 0 <= i < |items| ==> back.items[i] == items[i];
    case Object(fields) =>
      if k :| k in fields && k !in mapping && k in mapping.Values {
        LookalikeIsLost(out, mapping, inv, back, k);
      } else {
        RoundTripOfObject(val, fields, mapping, inv, out, back);
      }
  }

  lemma {:induction false} RoundTripOfObject(
      val: Json, fields: map<string, Json>, mapping: Mapping, inv: Mapping, out: Json, back: Json)
    requires val == Object(fields) && IsInverse(mapping, inv)
    requires Renames(val, mapping, out) && Renames(out, inv, back)
    requires forall k :: k in fields && k !in mapping ==> k !in mapping.Values
    ensures back.Object?
    ensures back == val <==> AvoidsRange(val, mapping)
    decreases val, 0
  {
    forall k | k in fields ensures NewKey(inv, NewKey(mapping, k)) == k { KeyComesBackIff(mapping, inv, k); }
    assert KeysComeBack(fields, mapping, inv);
    NamesGoBack(fields, mapping, inv, out);
    forall k | k in fields
      ensures back.Object? && k in back.fields && (back.fields[k] == fields[k] <==> AvoidsRange(fields[k], mapping))
    {
      EntryOf(fields, mapping, out, k);
      EntryOf(out.fields, inv, back, NewKey(mapping, k));
      RoundTripIff(fields[k], mapping, inv, out.fields[NewKey(mapping, k)], back.fields[k]);
    }
    forall k | k in back.fields ensures k in fields { NoKeyIsAdded(fields, inv, out, back, k); }
    SameFieldsIff(fields, back.fields, mapping);
  }

  lemma SameFieldsIff(fields: map<string, Json>, back: map<string, Json>, mapping: Mapping)
    requires forall k :: k in back <==> k in fields
    requires forall k :: k in fields ==> (back[k] == fields[k] <==> AvoidsRange(fields[k], mapping))
    requires forall k :: k in fields && k !in mapping ==> k !in mapping.Values
    ensures Object(back) == Object(fields) <==> AvoidsRange(Object(fields), mapping)
  {
    if AvoidsRange(Object(fields), mapping) { assert back == fields; }
  }
}
