/** Which repeated entries the review reports. */
module ReviewMeaning {
  import opened Common
  import opened Json
  import opened PolicyReview

  /** The value at a path; `None` where the path leads nowhere. */
  function ValueAt(v: Value, path: seq<PathStep>): Option<Value>
    decreases |path|
  {
    if path == [] then Some(v)
    else
      match path[0]
      case Key(k) => if v.Obj? && k in v.fields then ValueAt(v.fields[k], path[1..]) else None
      case Index(i) => if v.Arr? && i < |v.items| then ValueAt(v.items[i], path[1..]) else None
  }

  /** The path goes through no array entry that repeats an earlier one. */
  ghost predicate ThroughFirsts(v: Value, path: seq<PathStep>)
    decreases |path|
  {
    path != [] ==>
      match path[0]
      case Key(k) => v.Obj? && k in v.fields ==> ThroughFirsts(v.fields[k], path[1..])
      case Index(i) => v.Arr? && i < |v.items| ==> IsFirst(v.items, i) && ThroughFirsts(v.items[i], path[1..])
  }

  /** Of an array, the later entry repeats the earlier one, which repeats none: cleaned, both are the value. */
  ghost predicate Repeats(list: Value, first: nat, later: nat, value: Value) {
    && list.Arr? && first < later < |list.items| && IsFirst(list.items, first)
    && Clean(list.items[first]) == Clean(list.items[later]) == value
  }

  /** What the review has to report of a value, the path being taken from there. */
  ghost predicate ToReport(v: Value, path: seq<PathStep>, d: Duplicate) {
    && ThroughFirsts(v, path) && ValueAt(v, path).Some?
    && Repeats(ValueAt(v, path).value, d.firstIndex, d.duplicateIndex, d.value)
  }

  lemma InsideField(fields: map<string, Value>, k: string, rest: seq<PathStep>, d: Duplicate)
    requires k in fields
    ensures ToReport(Obj(fields), [Key(k)] + rest, d) <==> ToReport(fields[k], rest, d)
  {
    assert ([Key(k)] + rest)[1..] == rest;
    hide Repeats;
  }

  lemma InsideItem(items: seq<Value>, i: nat, rest: seq<PathStep>, d: Duplicate)
    requires i < |items|
    ensures ToReport(Arr(items), [Index(i)] + rest, d) <==> IsFirst(items, i) && ToReport(items[i], rest, d)
  {
    assert ([Index(i)] + rest)[1..] == rest;
    hide Repeats, IsFirst;
  }

  /** Firsts of the front of an array are firsts of the array. */
  lemma FirstOfFront(items: seq<Value>, n: nat, i: nat)
    requires n <= |items| && i < n
    ensures IsFirst(items[..n], i) <==> IsFirst(items, i)
  {
    hide Clean;
    assert forall j :: 0 <= j <= i ==> items[..n][j] == items[j];
  }

  /** What there is to report of an array: of its front, and of its last entry. */
  lemma OfLast(items: seq<Value>, path: seq<PathStep>, d: Duplicate)
    requires items != []
    ensures var n := |items| - 1;
            ToReport(Arr(items), path, d) <==>
              || ToReport(Arr(items[..n]), path, d)
              || (path == [] && d.duplicateIndex == n && Repeats(Arr(items), d.firstIndex, n, d.value))
              || (path != [] && path[0] == Index(n) && IsFirst(items, n) && ToReport(items[n], path[1..], d))
  {
    var n := |items| - 1;
    if path == [] {
      if d.firstIndex < n {
        FirstOfFront(items, n, d.firstIndex);
      }
      hide IsFirst, Clean;
    } else {
      assert path == [path[0]] + path[1..];
      if path[0].Index? {
        var i := path[0].at;
        if i < |items| {
          InsideItem(items, i, path[1..], d);
        }
        if i < n {
          InsideItem(items[..n], i, path[1..], d);
          FirstOfFront(items, n, i);
        }
      }
      hide IsFirst, Clean, Repeats;
    }
  }

  lemma NothingToReport(d: Duplicate, path: seq<PathStep>)
    ensures !ToReport(Arr([]), path, d)
  {
  }

  /** The last entry is left out iff it repeats an earlier one. */
  lemma LastRepeats(items: seq<Value>)
    requires items != []
    ensures var n := |items| - 1; Clean(items[n]) in CleanItems(items[..n]) <==> !IsFirst(items, n)
  {
    var n := |items| - 1;
    CleanItemsMembers(items[..n]);
    hide Clean;
    assert forall j :: 0 <= j < n ==> items[..n][j] == items[j];
  }

  /** The last entry's share of what is recorded. */
  lemma LastReported(items: seq<Value>, base: seq<PathStep>, d: Duplicate)
    requires items != []
    ensures var n := |items| - 1;
            Clean(items[n]) in CleanItems(items[..n]) ==>
              (d == Duplicate(base, SeenAt(items[..n], Clean(items[n])), n, Clean(items[n]))
               <==> d.path == base && d.duplicateIndex == n && Repeats(Arr(items), d.firstIndex, n, d.value))
  {
    var n := |items| - 1;
    if Clean(items[n]) in CleanItems(items[..n]) {
      var first := SeenAt(items[..n], Clean(items[n]));
      hide Clean, CleanItems, SeenAt;
      assert forall j :: 0 <= j < n ==> items[..n][j] == items[j];
      assert IsFirst(items, first);
    }
  }

  lemma OneStep(base: seq<PathStep>, step: PathStep, path: seq<PathStep>)
    ensures base + [step] <= path <==> base <= path && |base| < |path| && path[|base|] == step
    ensures base + [step] <= path ==> path[|base|..] == [step] + path[|base| + 1..]
  {
  }

  lemma {:induction false} ItemsReported(items: seq<Value>, base: seq<PathStep>, d: Duplicate)
    ensures d in ItemDuplicates(items, base)
            <==> base <= d.path && ToReport(Arr(items), d.path[|base|..], d)
    decreases items, 1
  {
    if items == [] {
      NothingToReport(d, if base <= d.path then d.path[|base|..] else []);
    } else {
      var n := |items| - 1;
      ItemsReported(items[..n], base, d);
      Reported(items[n], base + [Index(n)], d);
      if base <= d.path {
        OfLast(items, d.path[|base|..], d);
      }
      LastRepeats(items);
      LastReported(items, base, d);
    }
  }

  /**
   * Exactly the repeated entries are reported whose array lies in no removed entry: each with the path of the array,
   * its own index, the index of the first entry that cleans to the same value, and that value.
   */
  lemma {:induction false} Reported(v: Value, base: seq<PathStep>, d: Duplicate)
    ensures d in Duplicates(v, base) <==> base <= d.path && ToReport(v, d.path[|base|..], d)
    decreases v, 0
  {
    match v
    case Obj(fields) =>
      forall k | k in fields
        ensures d in Duplicates(fields[k], base + [Key(k)])
                <==> base <= d.path && |base| < |d.path| && d.path[|base|] == Key(k) && ToReport(v, d.path[|base|..], d)
      {
        Reported(fields[k], base + [Key(k)], d);
        OneStep(base, Key(k), d.path);
        if base + [Key(k)] <= d.path {
          InsideField(fields, k, d.path[|base| + 1..], d);
        }
      }
      if base <= d.path && ToReport(v, d.path[|base|..], d) {
        assert d.path[|base|..] != [];
      }
    case Arr(items) => ItemsReported(items, base, d);
    case _ =>
  }

  // ----- the review

  /**
   * The review of a policy reports exactly what there is to report in the documented sections, each once; in its
   * proposal no array of these has equal entries, and the others are as they were.
   */
  lemma ReviewReports(policy: map<string, Value>, findings: seq<Duplicate>, d: Duplicate)
    requires Lists(findings, FieldDuplicates(policy, policy.Keys * SUPPORTED, []))
    ensures Distinct(findings)
    ensures d in findings <==>
            && d.path != [] && d.path[0].Key? && d.path[0].name in policy && d.path[0].name in SUPPORTED
            && ToReport(policy[d.path[0].name], d.path[1..], d)
    ensures Candidate(policy).Keys == policy.Keys
    ensures forall section :: section in policy ==>
              if section in SUPPORTED then DuplicateFree(Candidate(policy)[section])
              else Candidate(policy)[section] == policy[section]
  {
    forall section | section in policy ensures DuplicateFree(Clean(policy[section])) {
      CleanIsDuplicateFree(policy[section]);
    }
    forall k | k in policy
      ensures d in Duplicates(policy[k], [] + [Key(k)])
              <==> d.path != [] && d.path[0] == Key(k) && ToReport(policy[k], d.path[1..], d)
    {
      Reported(policy[k], [] + [Key(k)], d);
      OneStep([], Key(k), d.path);
    }
    hide Clean, DuplicateFree, ToReport, Duplicates;
  }
}
