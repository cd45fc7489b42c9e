/** The duplicate-removal review: one pass that builds the cleaned value and the list of findings together. */
module PolicyReview {
  import opened Common
  import opened Json

  /** A list that holds exactly the given duplicates, each once. */
  ghost predicate Lists(found: seq<Duplicate>, expected: set<Duplicate>) {
    Distinct(found) && forall d :: d in found <==> d in expected
  }

  ghost function FieldDuplicates(fields: map<string, Value>, keys: set<string>, path: seq<PathStep>): set<Duplicate> {
    set k, d | k in keys && k in fields && d in Duplicates(fields[k], path + [Key(k)]) :: d
  }

  // ----- findings of different parts of a value are different

  lemma {:induction false} DuplicatesBelow(v: Value, path: seq<PathStep>)
    ensures forall d :: d in Duplicates(v, path) ==> path <= d.path
    decreases v, 0
  {
    match v
    case Obj(fields) =>
      forall k, d | k in fields && d in Duplicates(fields[k], path + [Key(k)]) ensures path <= d.path {
        DuplicatesBelow(fields[k], path + [Key(k)]);
      }
    case Arr(items) => ItemDuplicatesBelow(items, path);
    case _ =>
  }

  /** A finding of an array is about one of its own entries, or lies inside the entry of some index. */
  ghost predicate BelowItems(d: Duplicate, path: seq<PathStep>, n: nat) {
    path <= d.path && (if d.path == path then d.duplicateIndex < n else d.path[|path|].Index? && d.path[|path|].at < n)
  }

  lemma {:induction false} ItemDuplicatesBelow(items: seq<Value>, path: seq<PathStep>)
    ensures forall d :: d in ItemDuplicates(items, path) ==> BelowItems(d, path, |items|)
    decreases items, 1
  {
    if items != [] {
      var n := |items| - 1;
      ItemDuplicatesBelow(items[..n], path);
      DuplicatesBelow(items[n], path + [Index(n)]);
      forall d | d in Duplicates(items[n], path + [Index(n)]) ensures BelowItems(d, path, |items|) {
        assert d.path[|path|] == (path + [Index(n)])[|path|];
      }
    }
  }

  /** Findings appended in two steps. */
  lemma SuffixSplit(findings: seq<Duplicate>, before: seq<Duplicate>, more: seq<Duplicate>)
    requires findings <= before <= more
    ensures more[|findings|..] == before[|findings|..] + more[|before|..]
  {
  }

  lemma AppendLists(found: seq<Duplicate>, expected: set<Duplicate>, more: seq<Duplicate>, extra: set<Duplicate>)
    requires Lists(found, expected) && Lists(more, extra) && expected !! extra
    ensures Lists(found + more, expected + extra)
  {
    forall i, j | 0 <= i < j < |found + more| ensures (found + more)[i] != (found + more)[j] {
      if i < |found| <= j {
        assert found[i] in expected && more[j - |found|] in extra;
      }
    }
  }

  /** Everything recorded inside one part of a value has that part's step in its path. */
  lemma DuplicatesInside(v: Value, path: seq<PathStep>, step: PathStep)
    ensures forall d :: d in Duplicates(v, path + [step]) ==> |path| < |d.path| && d.path[|path|] == step
  {
    DuplicatesBelow(v, path + [step]);
    forall d | d in Duplicates(v, path + [step]) ensures |path| < |d.path| && d.path[|path|] == step {
      assert (path + [step])[|path|] == step;
    }
  }

  lemma NewItemIsFresh(items: seq<Value>, n: nat, path: seq<PathStep>)
    requires n < |items|
    ensures ItemDuplicates(items[..n], path) !! Duplicates(items[n], path + [Index(n)])
    ensures forall d :: d in ItemDuplicates(items[..n], path) ==> d.path != path || d.duplicateIndex < n
  {
    ItemDuplicatesBelow(items[..n], path);
    DuplicatesInside(items[n], path, Index(n));
  }

  lemma NewFieldIsFresh(fields: map<string, Value>, done: set<string>, k: string, path: seq<PathStep>)
    requires k in fields && k !in done && done <= fields.Keys
    ensures FieldDuplicates(fields, done, path) !! Duplicates(fields[k], path + [Key(k)])
    ensures FieldDuplicates(fields, done + {k}, path)
            == FieldDuplicates(fields, done, path) + Duplicates(fields[k], path + [Key(k)])
  {
    DuplicatesInside(fields[k], path, Key(k));
    forall d | d in FieldDuplicates(fields, done, path)
      ensures |path| < |d.path| && d.path[|path|].Key? && d.path[|path|].name in done
    {
      var other :| other in done && d in Duplicates(fields[other], path + [Key(other)]);
      DuplicatesInside(fields[other], path, Key(other));
    }
  }

  // ----- the pass

  /** What one more entry adds to the cleaned list and to the findings. */
  lemma ItemNext(items: seq<Value>, i: nat, path: seq<PathStep>)
    requires i < |items|
    ensures var before, c := CleanItems(items[..i]), Clean(items[i]);
            && CleanItems(items[..i + 1]) == (if c in before then before else before + [c])
            && ItemDuplicates(items[..i + 1], path) == ItemDuplicates(items[..i], path)
               + (if c in before then {Duplicate(path, SeenAt(items[..i], c), i, c)}
                  else Duplicates(items[i], path + [Index(i)]))
  {
    assert items[..i + 1][..i] == items[..i];
  }

  lemma SeenNext(items: seq<Value>, i: nat)
    requires i < |items|
    ensures forall c :: c in CleanItems(items[..i]) ==>
      c in CleanItems(items[..i + 1]) && SeenAt(items[..i + 1], c) == SeenAt(items[..i], c)
    ensures Clean(items[i]) !in CleanItems(items[..i]) ==>
      Clean(items[i]) in CleanItems(items[..i + 1]) && SeenAt(items[..i + 1], Clean(items[i])) == i
  {
    var next := items[..i + 1];
    assert next[..i] == items[..i] && next[i] == items[i];
    CleanItemsMembers(items[..i]);
    forall c | c in CleanItems(items[..i])
      ensures c in CleanItems(next) && SeenAt(next, c) == SeenAt(items[..i], c)
    {
      var a := SeenAt(items[..i], c);
      assert next[a] == items[..i][a];
      assert forall j :: 0 <= j < a ==> next[j] == items[..i][j];
    }
    if Clean(items[i]) !in CleanItems(items[..i]) {
      assert forall j :: 0 <= j < i ==> next[j] == items[..i][j];
    }
  }

  /** Removes repeated array entries from a value and appends what it removed to the findings. */
  method DeduplicateValue(value: Value, path: seq<PathStep>, findings: seq<Duplicate>)
    returns (cleaned: Value, more: seq<Duplicate>)
    ensures cleaned == Clean(value)
    ensures findings <= more && Lists(more[|findings|..], Duplicates(value, path))
    decreases value, 2
  {
    match value
    case Obj(fields) => cleaned, more := DeduplicateFields(fields, path, findings);
    case Arr(items) => cleaned, more := DeduplicateItems(items, path, findings);
    case _ => cleaned, more := value, findings;
  }

  /** One field of an object, given that the fields in `done` have been visited since `findings`. */
  method DeduplicateField(
    fields: map<string, Value>, k: string, ghost done: set<string>, path: seq<PathStep>,
    ghost findings: seq<Duplicate>, before: seq<Duplicate>)
    returns (item: Value, more: seq<Duplicate>)
    requires k in fields && k !in done && done <= fields.Keys
    requires findings <= before && Lists(before[|findings|..], FieldDuplicates(fields, done, path))
    ensures item == Clean(fields[k])
    ensures findings <= more && Lists(more[|findings|..], FieldDuplicates(fields, done + {k}, path))
    decreases Obj(fields), 0
  {
    hide Lists, FieldDuplicates, Duplicates, Clean;
    item, more := DeduplicateValue(fields[k], path + [Key(k)], before);
    NewFieldIsFresh(fields, done, k, path);
    AppendLists(before[|findings|..], FieldDuplicates(fields, done, path),
                more[|before|..], Duplicates(fields[k], path + [Key(k)]));
    SuffixSplit(findings, before, more);
  }

  lemma NothingListed(findings: seq<Duplicate>, fields: map<string, Value>, path: seq<PathStep>)
    ensures Lists(findings[|findings|..], {})
    ensures FieldDuplicates(fields, {}, path) == {}
  {
  }

  lemma CleanObject(fields: map<string, Value>)
    ensures Clean(Obj(fields)) == Obj(map k | k in fields :: Clean(fields[k]))
  {
  }

  lemma AllFields(fields: map<string, Value>, path: seq<PathStep>)
    ensures FieldDuplicates(fields, fields.Keys, path) == Duplicates(Obj(fields), path)
  {
  }

  /** The order in which an object's keys are visited is left open, so every insertion order is covered. */
  method DeduplicateFields(fields: map<string, Value>, path: seq<PathStep>, findings: seq<Duplicate>)
    returns (cleaned: Value, more: seq<Duplicate>)
    ensures cleaned == Clean(Obj(fields))
    ensures findings <= more && Lists(more[|findings|..], Duplicates(Obj(fields), path))
    decreases Obj(fields), 1
  {
    CleanObject(fields);
    hide Lists, Duplicates, Clean, FieldDuplicates;
    var result: map<string, Value> := map[];
    var left := fields.Keys;
    ghost var done := {};
    more := findings;
    NothingListed(findings, fields, path);
    while left != {}
      invariant done <= fields.Keys && left == fields.Keys - done && result.Keys == done
      invariant forall k :: k in done ==> result[k] == Clean(fields[k])
      invariant findings <= more && Lists(more[|findings|..], FieldDuplicates(fields, done, path))
      decreases left
    {
      var k :| k in left;
      var item;
      item, more := DeduplicateField(fields, k, done, path, findings, more);
      result, left, done := result[k := item], left - {k}, done + {k};
    }
    cleaned := Obj(result);
    AllFields(fields, path);
    assert done == fields.Keys;
  }

  lemma StartOfItems(items: seq<Value>, path: seq<PathStep>)
    ensures CleanItems(items[..0]) == [] && ItemDuplicates(items[..0], path) == {}
    ensures Clean(Arr(items)) == Arr(CleanItems(items))
    ensures Duplicates(Arr(items), path) == ItemDuplicates(items, path)
  {
  }

  lemma OneListed(d: Duplicate)
    ensures Lists([d], {d})
  {
  }

  method DeduplicateItems(items: seq<Value>, path: seq<PathStep>, findings: seq<Duplicate>)
    returns (cleaned: Value, more: seq<Duplicate>)
    ensures cleaned == Clean(Arr(items))
    ensures findings <= more && Lists(more[|findings|..], Duplicates(Arr(items), path))
    decreases Arr(items), 1
  {
    StartOfItems(items, path);
    hide Lists, Clean, CleanItems, Duplicates, ItemDuplicates;
    var result: seq<Value> := [];
    var seen: map<Value, nat> := map[];
    more := findings;
    NothingListed(findings, map[], path);
    for i := 0 to |items|
      invariant result == CleanItems(items[..i])
      invariant forall c :: c in seen <==> c in result
      invariant forall c :: c in seen ==> seen[c] == SeenAt(items[..i], c)
      invariant findings <= more
      invariant Lists(more[|findings|..], ItemDuplicates(items[..i], path))
    {
      ghost var before := more;
      ItemNext(items, i, path);
      NewItemIsFresh(items, i, path);
      SeenNext(items, i);
      var item, nested := DeduplicateValue(items[i], path + [Index(i)], []);
      assert nested[0..] == nested;
      if item in seen {
        var duplicate := Duplicate(path, seen[item], i, item);
        more := more + [duplicate];
        OneListed(duplicate);
        AppendLists(before[|findings|..], ItemDuplicates(items[..i], path), [duplicate], {duplicate});
        assert more[|findings|..] == before[|findings|..] + [duplicate];
      } else {
        more := more + nested;
        AppendLists(before[|findings|..], ItemDuplicates(items[..i], path),
                    nested, Duplicates(items[i], path + [Index(i)]));
        assert more[|findings|..] == before[|findings|..] + nested;
        seen := seen[item := i];
        result := result + [item];
      }
    }
    assert items[..|items|] == items;
    cleaned := Arr(result);
  }

  // ----- the review of a policy

  const SUPPORTED: set<string> := {
    "grants", "acls", "ssh", "groups", "tagOwners", "hosts", "ipsets", "postures", "defaultSrcPosture",
    "autoApprovers", "tests", "sshTests", "nodeAttrs"}

  /** The proposed replacement: documented sections cleaned, everything else as it was. */
  function Candidate(policy: map<string, Value>): map<string, Value> {
    map section | section in policy :: if section in SUPPORTED then Clean(policy[section]) else policy[section]
  }

  lemma ReviewChangedIff(policy: map<string, Value>)
    ensures Candidate(policy) != policy <==> FieldDuplicates(policy, policy.Keys * SUPPORTED, []) != {}
  {
    forall k | k in policy ensures Duplicates(policy[k], [] + [Key(k)]) == {} <==> Clean(policy[k]) == policy[k] {
      ChangedIffRecorded(policy[k], [] + [Key(k)]);
    }
    if Candidate(policy) != policy {
      var k :| k in policy && Candidate(policy)[k] != policy[k];
      var d :| d in Duplicates(policy[k], [] + [Key(k)]);
      assert d in FieldDuplicates(policy, policy.Keys * SUPPORTED, []);
    } else {
      forall k | k in policy.Keys * SUPPORTED ensures Duplicates(policy[k], [] + [Key(k)]) == {} {
        assert Candidate(policy)[k] == Clean(policy[k]);
      }
    }
  }

  method ReviewPolicy(policy: map<string, Value>)
    returns (candidate: map<string, Value>, findings: seq<Duplicate>, changed: bool)
    ensures candidate == Candidate(policy)
    ensures Lists(findings, FieldDuplicates(policy, policy.Keys * SUPPORTED, []))
    ensures changed <==> candidate != policy
    ensures changed <==> |findings| > 0
  {
    hide Clean, FieldDuplicates;
    candidate, findings := policy, [];
    var left := policy.Keys * SUPPORTED;
    ghost var done := {};
    NothingListed([], policy, []);
    while left != {}
      invariant done <= policy.Keys && left == policy.Keys * SUPPORTED - done && done <= SUPPORTED
      invariant candidate.Keys == policy.Keys
      invariant forall k :: k in policy ==> candidate[k] == if k in done then Clean(policy[k]) else policy[k]
      invariant Lists(findings, FieldDuplicates(policy, done, []))
      decreases left
    {
      var section :| section in left;
      assert findings[0..] == findings;
      var cleaned;
      cleaned, findings := DeduplicateField(policy, section, done, [], [], findings);
      assert findings[0..] == findings;
      candidate, left, done := candidate[section := cleaned], left - {section}, done + {section};
    }
    assert done == policy.Keys * SUPPORTED;
    changed := candidate != policy;
    ReviewChangedIff(policy);
    assert findings != [] ==> findings[0] in findings;
  }
}
