/** Parsed policy documents, and the removal of repeated array entries from them. */
module Json {
  import opened Common

  /**
   * A JSON value. An object is an unordered map, so that equality of values is equality of their canonical
   * texts, which sort object keys; a number is its canonical text.
   */
  datatype Value =
    | Null
    | Bool(flag: bool)
    | Number(text: string)
    | Str(str: string)
    | Arr(items: seq<Value>)
    | Obj(fields: map<string, Value>)

  datatype PathStep = Key(name: string) | Index(at: nat)

  /** A removed array entry: where, which entry it repeats, and the cleaned value both have. */
  datatype Duplicate = Duplicate(path: seq<PathStep>, firstIndex: nat, duplicateIndex: nat, value: Value)

  // ----- the cleaned value

  /** A value without repeated array entries, at any depth; entries are compared after cleaning. */
  function Clean(v: Value): Value
    decreases v, 0
  {
    match v
    case Obj(fields) => Obj(map k | k in fields :: Clean(fields[k]))
    case Arr(items) => Arr(CleanItems(items))
    case _ => v
  }

  function CleanItems(items: seq<Value>): seq<Value>
    decreases items, 1
  {
    if items == [] then []
    else
      var n := |items| - 1;
      var before := CleanItems(items[..n]);
      var cleaned := Clean(items[n]);
      if cleaned in before then before else before + [cleaned]
  }

  /** No array at any depth has two equal entries. */
  ghost predicate DuplicateFree(v: Value)
    decreases v
  {
    match v
    case Obj(fields) => forall k :: k in fields ==> DuplicateFree(fields[k])
    case Arr(items) => Distinct(items) && forall i :: 0 <= i < |items| ==> DuplicateFree(items[i])
    case _ => true
  }

  lemma {:induction false} CleanItemsMembers(items: seq<Value>)
    ensures forall c :: c in CleanItems(items) <==> exists i :: 0 <= i < |items| && Clean(items[i]) == c
    decreases |items|
  {
    if items != [] {
      var n := |items| - 1;
      CleanItemsMembers(items[..n]);
      forall c ensures c in CleanItems(items) <==> exists i :: 0 <= i < |items| && Clean(items[i]) == c {
        if i :| 0 <= i < |items| && Clean(items[i]) == c {
          assert i < n ==> items[..n][i] == items[i];
        }
        if c in CleanItems(items[..n]) {
          var i :| 0 <= i < n && Clean(items[..n][i]) == c;
          assert Clean(items[i]) == c;
        }
      }
    }
  }

  lemma {:induction false} CleanIsDuplicateFree(v: Value)
    ensures DuplicateFree(Clean(v))
    decreases v, 0
  {
    match v
    case Obj(fields) =>
      forall k | k in fields ensures DuplicateFree(Clean(fields[k])) {
        CleanIsDuplicateFree(fields[k]);
      }
    case Arr(items) => CleanItemsDuplicateFree(items);
    case _ =>
  }

  lemma {:induction false} CleanItemsDuplicateFree(items: seq<Value>)
    ensures DuplicateFree(Arr(CleanItems(items)))
    decreases items, 1
  {
    if items != [] {
      var n := |items| - 1;
      CleanItemsDuplicateFree(items[..n]);
      CleanIsDuplicateFree(items[n]);
    }
  }

  /** Cleaning what is already free of duplicates changes nothing. */
  lemma {:induction false} CleanFixesDuplicateFree(v: Value)
    requires DuplicateFree(v)
    ensures Clean(v) == v
    decreases v, 0
  {
    match v
    case Obj(fields) =>
      forall k | k in fields ensures Clean(fields[k]) == fields[k] {
        CleanFixesDuplicateFree(fields[k]);
      }
    case Arr(items) => CleanItemsFixesDuplicateFree(items);
    case _ =>
  }

  lemma {:induction false} CleanItemsFixesDuplicateFree(items: seq<Value>)
    requires DuplicateFree(Arr(items))
    ensures CleanItems(items) == items
    decreases items, 1
  {
    if items != [] {
      var n := |items| - 1;
      assert items == items[..n] + [items[n]];
      CleanItemsFixesDuplicateFree(items[..n]);
      CleanFixesDuplicateFree(items[n]);
    }
  }

  lemma CleanIdempotent(v: Value)
    ensures Clean(Clean(v)) == Clean(v)
  {
    CleanIsDuplicateFree(v);
    CleanFixesDuplicateFree(Clean(v));
  }

  /** Cleaning changes a value exactly when some array in it has equal entries. */
  lemma CleanChangesIff(v: Value)
    ensures Clean(v) == v <==> DuplicateFree(v)
  {
    CleanIsDuplicateFree(v);
    if DuplicateFree(v) {
      CleanFixesDuplicateFree(v);
    }
  }

  // ----- which entries are kept

  /** No earlier entry cleans to the same value. */
  ghost predicate IsFirst(items: seq<Value>, i: nat)
    requires i < |items|
  {
    forall j :: 0 <= j < i ==> Clean(items[j]) != Clean(items[i])
  }

  /** The indices of the kept entries. */
  ghost function Kept(items: seq<Value>): seq<nat> {
    if items == [] then []
    else
      var n := |items| - 1;
      Kept(items[..n]) + if IsFirst(items, n) then [n] else []
  }

  lemma {:induction false} KeptAreFirsts(items: seq<Value>)
    ensures forall i :: i in Kept(items) <==> 0 <= i < |items| && IsFirst(items, i)
    ensures forall a, b :: 0 <= a < b < |Kept(items)| ==> Kept(items)[a] < Kept(items)[b]
    decreases |items|
  {
    hide Clean;
    if items != [] {
      var n := |items| - 1;
      KeptAreFirsts(items[..n]);
      forall i | 0 <= i < n ensures IsFirst(items[..n], i) <==> IsFirst(items, i) {
        assert forall j :: 0 <= j <= i ==> items[..n][j] == items[j];
      }
      forall a | 0 <= a < |Kept(items[..n])| ensures Kept(items[..n])[a] < n {
        assert Kept(items[..n])[a] in Kept(items[..n]);
      }
    }
  }

  /** The kept entries are the first occurrences, in their original order, each cleaned. */
  lemma {:induction false} KeepsFirstOccurrences(items: seq<Value>)
    ensures forall i :: i in Kept(items) <==> 0 <= i < |items| && IsFirst(items, i)
    ensures forall a, b :: 0 <= a < b < |Kept(items)| ==> Kept(items)[a] < Kept(items)[b]
    ensures |CleanItems(items)| == |Kept(items)|
    ensures forall a :: 0 <= a < |Kept(items)| ==>
      Kept(items)[a] < |items| && CleanItems(items)[a] == Clean(items[Kept(items)[a]])
    decreases |items|
  {
    hide Clean;
    KeptAreFirsts(items);
    if items != [] {
      var n := |items| - 1;
      var before := items[..n];
      KeepsFirstOccurrences(before);
      CleanItemsMembers(before);
      assert IsFirst(items, n) <==> Clean(items[n]) !in CleanItems(before) by {
        assert forall j :: 0 <= j < n ==> before[j] == items[j];
      }
    }
  }

  /** The least index whose entry cleans to `c`. */
  function FirstIndex(items: seq<Value>, c: Value): (i: nat)
    requires exists j :: 0 <= j < |items| && Clean(items[j]) == c
    ensures i < |items| && Clean(items[i]) == c
    ensures forall j :: 0 <= j < i ==> Clean(items[j]) != c
  {
    if Clean(items[0]) == c then 0
    else
      assert exists j :: 0 <= j < |items[1..]| && Clean(items[1..][j]) == c by {
        var j :| 0 <= j < |items| && Clean(items[j]) == c;
        assert items[1..][j - 1] == items[j];
      }
      1 + FirstIndex(items[1..], c)
  }

  // ----- the recorded duplicates

  /** The duplicates that cleaning a value records; those inside a removed entry are not recorded. */
  ghost function Duplicates(v: Value, path: seq<PathStep>): set<Duplicate>
    decreases v, 0
  {
    match v
    case Obj(fields) => set k, d | k in fields && d in Duplicates(fields[k], path + [Key(k)]) :: d
    case Arr(items) => ItemDuplicates(items, path)
    case _ => {}
  }

  ghost function SeenAt(items: seq<Value>, cleaned: Value): (i: nat)
    requires cleaned in CleanItems(items)
    ensures i < |items| && Clean(items[i]) == cleaned
    ensures forall j :: 0 <= j < i ==> Clean(items[j]) != cleaned
  {
    CleanItemsMembers(items);
    FirstIndex(items, cleaned)
  }

  ghost function ItemDuplicates(items: seq<Value>, path: seq<PathStep>): set<Duplicate>
    decreases items, 1
  {
    if items == [] then {}
    else
      var n := |items| - 1;
      var cleaned := Clean(items[n]);
      ItemDuplicates(items[..n], path)
      + if cleaned in CleanItems(items[..n])
        then {Duplicate(path, SeenAt(items[..n], cleaned), n, cleaned)}
        else Duplicates(items[n], path + [Index(n)])
  }

  /** A value changes under cleaning exactly when a duplicate is recorded. */
  lemma {:induction false} ChangedIffRecorded(v: Value, path: seq<PathStep>)
    ensures Duplicates(v, path) == {} <==> Clean(v) == v
    decreases v, 0
  {
    match v
    case Obj(fields) =>
      forall k | k in fields ensures Duplicates(fields[k], path + [Key(k)]) == {} <==> Clean(fields[k]) == fields[k] {
        ChangedIffRecorded(fields[k], path + [Key(k)]);
      }
      if Clean(v) == v {
        forall k | k in fields ensures Duplicates(fields[k], path + [Key(k)]) == {} {
          assert Clean(v).fields[k] == Clean(fields[k]);
        }
      } else {
        var k :| k in fields && Clean(fields[k]) != fields[k];
        var d :| d in Duplicates(fields[k], path + [Key(k)]);
        assert d in Duplicates(v, path);
      }
    case Arr(items) => ItemsChangedIffRecorded(items, path);
    case _ =>
  }

  lemma {:induction false} CleanItemsNoLonger(items: seq<Value>)
    ensures |CleanItems(items)| <= |items|
    decreases |items|
  {
    if items != [] {
      CleanItemsNoLonger(items[..|items| - 1]);
    }
  }

  lemma {:induction false} ItemsChangedIffRecorded(items: seq<Value>, path: seq<PathStep>)
    ensures ItemDuplicates(items, path) == {} <==> CleanItems(items) == items
    decreases items, 1
  {
    if items != [] {
      var n := |items| - 1;
      assert items == items[..n] + [items[n]];
      ItemsChangedIffRecorded(items[..n], path);
      ChangedIffRecorded(items[n], path + [Index(n)]);
      CleanItemsNoLonger(items[..n]);
      if CleanItems(items) == items {
        assert CleanItems(items)[..n] == items[..n];
      }
    }
  }
}
