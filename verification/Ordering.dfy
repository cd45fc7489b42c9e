/** Code-point order on strings, and sorting collections of strings without repetition. */
module Ordering {

  /** `a` sorts before `b`. */
  predicate Less(a: string, b: string) {
    b != "" && (a == "" || a[0] < b[0] || (a[0] == b[0] && Less(a[1..], b[1..])))
  }

  lemma {:induction false} LessIrreflexive(a: string)
    ensures !Less(a, a)
  {
    if a != "" {
      LessIrreflexive(a[1..]);
    }
  }

  lemma {:induction false} LessTransitive(a: string, b: string, c: string)
    requires Less(a, b) && Less(b, c)
    ensures Less(a, c)
  {
    if a != "" && a[0] == b[0] == c[0] {
      LessTransitive(a[1..], b[1..], c[1..]);
    }
  }

  lemma {:induction false} LessTotal(a: string, b: string)
    ensures a == b || Less(a, b) || Less(b, a)
  {
    if a != "" && b != "" && a[0] == b[0] {
      LessTotal(a[1..], b[1..]);
      if a[1..] == b[1..] {
        assert a == [a[0]] + a[1..] == b;
      }
    }
  }

  /** The texts agree before the `i`-th character, and there the first one ends or has the smaller character. */
  predicate DecidedAt(a: string, b: string, i: nat) {
    i <= |a| && i < |b| && a[..i] == b[..i] && (i == |a| || a[i] < b[i])
  }

  lemma AgreeAtFirst(a: string, b: string)
    ensures forall i: nat :: DecidedAt(a, b, i) && i > 0 ==> a != "" && b != "" && a[0] == b[0]
  {
    forall i: nat | DecidedAt(a, b, i) && i > 0 ensures a != "" && b != "" && a[0] == b[0] {
      assert a[..i][0] == a[0] && b[..i][0] == b[0];
    }
  }

  /** A text comes before another iff it is its beginning, or has the smaller character where they first differ. */
  lemma {:induction false} LessIff(a: string, b: string)
    ensures Less(a, b) <==> exists i: nat :: DecidedAt(a, b, i)
    decreases |a|
  {
    AgreeAtFirst(a, b);
    if a == "" || b == "" || a[0] != b[0] {
      assert b != "" && (a == "" || a[0] < b[0]) ==> DecidedAt(a, b, 0);
    } else {
      LessIff(a[1..], b[1..]);
      if i: nat :| DecidedAt(a[1..], b[1..], i) {
        assert a[..i + 1] == [a[0]] + a[1..][..i] && b[..i + 1] == [b[0]] + b[1..][..i];
        assert DecidedAt(a, b, i + 1);
      }
      if i: nat :| DecidedAt(a, b, i) {
        assert i > 0;
        assert a[1..][..i - 1] == a[..i][1..] && b[1..][..i - 1] == b[..i][1..];
        assert DecidedAt(a[1..], b[1..], i - 1);
      }
    }
  }

  predicate StrictlySorted(s: seq<string>) {
    forall i, j :: 0 <= i < j < |s| ==> Less(s[i], s[j])
  }

  /** Puts `x` at its place in a sorted list, unless it is there already. */
  function Insert(x: string, s: seq<string>): (r: seq<string>)
    requires StrictlySorted(s)
    ensures StrictlySorted(r)
    ensures forall y :: y in r <==> y == x || y in s
  {
    if s == [] then [x]
    else if x == s[0] then s
    else if Less(x, s[0]) then
      assert StrictlySorted([x] + s) by {
        forall i | 0 <= i < |s| ensures Less(x, s[i]) {
          if i > 0 { LessTransitive(x, s[0], s[i]); }
        }
      }
      [x] + s
    else
      LessTotal(x, s[0]);
      assert s == [s[0]] + s[1..];
      var rest := Insert(x, s[1..]);
      assert StrictlySorted([s[0]] + rest) by {
        forall i | 0 <= i < |rest| ensures Less(s[0], rest[i]) {
          assert rest[i] in rest;
          if rest[i] != x {
            var j :| 0 <= j < |s[1..]| && s[1..][j] == rest[i];
            assert s[j + 1] == rest[i];
          }
        }
      }
      [s[0]] + rest
  }

  /** The elements of a list, sorted, each once. */
  function SortedUnique(s: seq<string>): (r: seq<string>)
    ensures StrictlySorted(r)
    ensures forall y :: y in r <==> y in s
  {
    if s == [] then []
    else
      assert s == [s[0]] + s[1..];
      Insert(s[0], SortedUnique(s[1..]))
  }

  lemma TailElements(a: seq<string>)
    requires StrictlySorted(a) && a != []
    ensures forall y :: y in a[1..] <==> y in a && y != a[0]
  {
    assert a == [a[0]] + a[1..];
    if a[0] in a[1..] {
      var i :| 0 <= i < |a| - 1 && a[1..][i] == a[0];
      assert Less(a[0], a[i + 1]);
      LessIrreflexive(a[0]);
    }
  }

  lemma SameHead(a: seq<string>, b: seq<string>)
    requires StrictlySorted(a) && StrictlySorted(b) && a != [] && b != []
    requires a[0] in b && b[0] in a
    ensures a[0] == b[0]
  {
    var i :| 0 <= i < |b| && b[i] == a[0];
    var j :| 0 <= j < |a| && a[j] == b[0];
    if i > 0 && j > 0 {
      LessTransitive(a[0], b[0], a[0]);
      LessIrreflexive(a[0]);
    }
  }

  /** A strictly sorted list is determined by its elements. */
  lemma {:induction false} SortedIsUnique(a: seq<string>, b: seq<string>)
    requires StrictlySorted(a) && StrictlySorted(b)
    requires forall y :: y in a <==> y in b
    ensures a == b
  {
    assert a != [] ==> a[0] in a;
    assert b != [] ==> b[0] in b;
    if a != [] {
      SameHead(a, b);
      TailElements(a);
      TailElements(b);
      SortedIsUnique(a[1..], b[1..]);
      assert a == [a[0]] + a[1..] == [b[0]] + b[1..] == b;
    }
  }

  predicate IsLeast(least: string, keys: set<string>) {
    least in keys && forall x :: x in keys ==> x == least || Less(least, x)
  }

  lemma {:induction false} LeastExists(keys: set<string>) returns (least: string)
    requires keys != {}
    ensures IsLeast(least, keys)
  {
    var some :| some in keys;
    var others := keys - {some};
    assert forall x :: x in keys <==> x == some || x in others;
    least := some;
    if others != {} {
      var rest := LeastExists(others);
      LessTotal(some, rest);
      if Less(rest, some) {
        least := rest;
      } else {
        forall x | x in others && x != rest ensures Less(some, x) {
          LessTransitive(some, rest, x);
        }
      }
    }
  }

  lemma LeastIsUnique(keys: set<string>, a: string, b: string)
    requires IsLeast(a, keys) && IsLeast(b, keys)
    ensures a == b
  {
    if a != b {
      LessTransitive(a, b, a);
      LessIrreflexive(a);
    }
  }

  function Least(keys: set<string>): (least: string)
    requires keys != {}
    ensures IsLeast(least, keys)
  {
    assert exists x :: IsLeast(x, keys) by {
      var x := LeastExists(keys);
    }
    assert forall a, b :: IsLeast(a, keys) && IsLeast(b, keys) ==> a == b by {
      forall a, b | IsLeast(a, keys) && IsLeast(b, keys) ensures a == b {
        LeastIsUnique(keys, a, b);
      }
    }
    var least :| least in keys && IsLeast(least, keys);
    least
  }

  /** The elements of a set, sorted. */
  function SortedKeys(keys: set<string>): (r: seq<string>)
    ensures StrictlySorted(r) && forall x :: x in r <==> x in keys
  {
    if keys == {} then []
    else
      var least := Least(keys);
      var rest := SortedKeys(keys - {least});
      assert forall i :: 0 <= i < |rest| ==> rest[i] in rest;
      [least] + rest
  }
}
