/** Version strings: how they are split for comparison, and the order that the comparison follows. */
module Versions {
  import opened Common
  import opened Ordering
  import opened Texts

  /** A number sorts before a text. */
  datatype Part = Number(value: nat) | Text(text: string)

  /**
   * What the host language knows of characters: case folding, the values of decimal digits in any script, and the
   * characters, such as superscripts, that count as digits without being decimal.
   */
  datatype Script = Script(fold: string -> string, digit: char -> Option<nat>, other: char -> bool)

  /** Decimal digits have values below ten, and those of ASCII have their own. */
  ghost predicate Sensible(k: Script) {
    && (forall c :: k.digit(c).Some? ==> k.digit(c).value < 10)
    && (forall d: nat :: d < 10 ==> k.digit(DigitChar(d)) == Some(d))
  }

  /** The most digits that the host language converts to a number. */
  const MOST_DIGITS := 4300

  // ----- splitting

  predicate Decimals(c: char, k: Script) {
    k.digit(c).Some?
  }

  /** The characters are all decimal digits, or none is. */
  predicate Uniform(s: string, k: Script) {
    forall i :: 0 <= i < |s| ==> Decimals(s[i], k) == Decimals(s[0], k)
  }

  /** The length of the longest uniform beginning. */
  function RunLength(s: string, k: Script): (n: nat)
    requires s != ""
    ensures 0 < n <= |s| && Uniform(s[..n], k)
    ensures n < |s| ==> Decimals(s[n], k) != Decimals(s[0], k)
  {
    if |s| == 1 || Decimals(s[1], k) != Decimals(s[0], k) then 1
    else
      var n := RunLength(s[1..], k);
      assert s[1..][..n] == s[1..n + 1];
      assert forall i :: 1 <= i < n + 1 ==> s[i] == s[1..][..n][i - 1];
      n + 1
  }

  function Runs(s: string, k: Script): seq<string> {
    if s == "" then [] else [s[..RunLength(s, k)]] + Runs(s[RunLength(s, k)..], k)
  }

  predicate DigitRun(run: string, k: Script) {
    run != "" && forall i :: 0 <= i < |run| ==> Decimals(run[i], k)
  }

  function ValueOf(run: string, k: Script): nat
    requires DigitRun(run, k)
  {
    var n := |run| - 1;
    if n == 0 then k.digit(run[0]).value else ValueOf(run[..n], k) * 10 + k.digit(run[n]).value
  }

  function PartOf(run: string, k: Script): Part {
    if DigitRun(run, k) then Number(ValueOf(run, k)) else Text(run)
  }

  /** A run whose conversion raises an error: too many digits, or nothing but digits that are not decimal. */
  predicate Unconvertible(run: string, k: Script) {
    if DigitRun(run, k) then |run| > MOST_DIGITS else forall i :: 0 <= i < |run| ==> k.other(run[i])
  }

  function PartsOf(runs: seq<string>, k: Script): seq<Part> {
    seq(|runs|, i requires 0 <= i < |runs| => PartOf(runs[i], k))
  }

  /** The parts of a version; `None` when a run cannot be converted. */
  function VersionParts(value: string, k: Script): Option<seq<Part>> {
    var runs := Runs(k.fold(value), k);
    if exists i :: 0 <= i < |runs| && Unconvertible(runs[i], k) then None else Some(PartsOf(runs, k))
  }

  // ----- the runs

  function Concat(runs: seq<string>): string {
    if runs == [] then "" else runs[0] + Concat(runs[1..])
  }

  /** Nothing is lost: the runs make up the string. */
  lemma {:induction false} RunsMakeUp(s: string, k: Script)
    ensures Concat(Runs(s, k)) == s
    decreases |s|
  {
    if s != "" {
      var n := RunLength(s, k);
      hide RunLength;
      RunsMakeUp(s[n..], k);
      assert Runs(s, k)[1..] == Runs(s[n..], k);
    }
  }

  /** Runs are uniform and not empty, and digits alternate with other characters: each run is maximal. */
  ghost predicate Alternating(runs: seq<string>, k: Script) {
    && (forall i :: 0 <= i < |runs| ==> runs[i] != "" && Uniform(runs[i], k))
    && (forall i :: 0 < i < |runs| ==> DigitRun(runs[i], k) != DigitRun(runs[i - 1], k))
  }

  lemma {:induction false} RunsAlternate(s: string, k: Script)
    ensures Alternating(Runs(s, k), k) && (s == "" <==> Runs(s, k) == [])
    ensures s != "" ==> DigitRun(Runs(s, k)[0], k) == Decimals(s[0], k)
    decreases |s|
  {
    if s != "" {
      var n := RunLength(s, k);
      RunsAlternate(s[n..], k);
      assert forall i :: 0 <= i < n ==> s[..n][i] == s[i];
      assert Runs(s, k)[1..] == Runs(s[n..], k);
    }
  }

  lemma RunLengthIs(a: string, b: string, k: Script)
    requires a != "" && Uniform(a, k) && (b != "" ==> Decimals(b[0], k) != Decimals(a[0], k))
    ensures RunLength(a + b, k) == |a|
  {
    var s := a + b;
    assert forall i :: 0 <= i < |a| ==> s[i] == a[i];
    assert b != "" ==> s[|a|] == b[0];
    var n := RunLength(s, k);
    assert forall i :: 0 <= i < n ==> s[..n][i] == s[i];
  }

  /** The first run of a string splits off. */
  lemma RunSplitsOff(a: string, b: string, k: Script)
    requires a != "" && Uniform(a, k) && (b != "" ==> Decimals(b[0], k) != Decimals(a[0], k))
    ensures Runs(a + b, k) == [a] + Runs(b, k)
  {
    RunLengthIs(a, b, k);
    assert (a + b)[..|a|] == a && (a + b)[|a|..] == b;
  }

  /** Splitting what alternating runs make up gives the runs back. */
  lemma {:induction false} RunsOfConcat(runs: seq<string>, k: Script)
    requires Alternating(runs, k)
    ensures Runs(Concat(runs), k) == runs
    ensures runs != [] ==> Concat(runs) != "" && Decimals(Concat(runs)[0], k) == DigitRun(runs[0], k)
    decreases |runs|
  {
    if runs != [] {
      var run, rest := runs[0], runs[1..];
      assert Alternating(rest, k);
      RunsOfConcat(rest, k);
      assert Concat(rest) != "" ==> rest != [];
      assert Uniform(run, k) && DigitRun(run, k) == Decimals(run[0], k);
      assert rest != [] ==> DigitRun(rest[0], k) != DigitRun(run, k);
      hide Alternating, Uniform, Runs, DigitRun;
      RunSplitsOff(run, Concat(rest), k);
      assert runs == [run] + rest;
    }
  }

  // ----- which stretches of a string are runs

  /** A longest possible part of a string that consists of decimal digits, or contains none. */
  predicate Stretch(s: string, lo: int, hi: int, k: Script) {
    && 0 <= lo < hi <= |s|
    && (forall i :: lo <= i < hi ==> Decimals(s[i], k) == Decimals(s[lo], k))
    && (lo > 0 ==> Decimals(s[lo - 1], k) != Decimals(s[lo], k))
    && (hi < |s| ==> Decimals(s[hi], k) != Decimals(s[lo], k))
  }

  lemma FirstStretch(s: string, k: Script)
    requires s != ""
    ensures Stretch(s, 0, RunLength(s, k), k)
    ensures forall lo, hi :: Stretch(s, lo, hi, k) && lo < RunLength(s, k) ==> lo == 0 && hi == RunLength(s, k)
  {
    var n := RunLength(s, k);
    assert forall i :: 0 <= i < n ==> s[..n][i] == s[i];
  }

  /** A stretch after the first run is one of what follows it. */
  lemma StretchOfRest(s: string, n: nat, lo: nat, hi: nat, k: Script)
    requires n <= lo && Stretch(s, 0, n, k) && Stretch(s, lo, hi, k)
    ensures Stretch(s[n..], lo - n, hi - n, k) && s[n..][lo - n..hi - n] == s[lo..hi]
  {
    var rest := s[n..];
    hide Decimals;
    assert forall i :: 0 <= i < |rest| ==> rest[i] == s[i + n];
    forall i | lo - n <= i < hi - n ensures Decimals(rest[i], k) == Decimals(rest[lo - n], k) {
      assert Decimals(s[i + n], k) == Decimals(s[lo], k);
    }
  }

  lemma {:induction false} StretchIsRun(s: string, lo: int, hi: int, k: Script)
    requires Stretch(s, lo, hi, k)
    ensures s[lo..hi] in Runs(s, k)
    decreases |s|
  {
    var n := RunLength(s, k);
    FirstStretch(s, k);
    assert lo >= 0 && hi > 0 && s != "";
    hide Stretch, RunLength;
    if n <= lo {
      StretchOfRest(s, n, lo, hi, k);
      StretchIsRun(s[n..], lo - n, hi - n, k);
    }
  }

  /** A stretch of what follows the first run is one of the whole string. */
  lemma LaterStretch(s: string, n: nat, lo: nat, hi: nat, k: Script)
    requires n < |s| && Stretch(s, 0, n, k) && Stretch(s[n..], lo, hi, k)
    ensures Stretch(s, lo + n, hi + n, k) && s[n..][lo..hi] == s[lo + n..hi + n]
  {
    var rest := s[n..];
    hide Decimals;
    assert forall i :: 0 <= i < |rest| ==> rest[i] == s[i + n];
    forall i | lo + n <= i < hi + n ensures Decimals(s[i], k) == Decimals(s[lo + n], k) {
      assert Decimals(rest[i - n], k) == Decimals(rest[lo], k);
    }
  }

  lemma FirstRun(s: string, k: Script)
    ensures if s == "" then Runs(s, k) == []
            else Runs(s, k) == [s[..RunLength(s, k)]] + Runs(s[RunLength(s, k)..], k)
  {
  }

  lemma {:induction false} RunIsStretch(s: string, i: nat, k: Script) returns (lo: nat, hi: nat)
    requires i < |Runs(s, k)|
    ensures lo < hi <= |s| && Stretch(s, lo, hi, k) && Runs(s, k)[i] == s[lo..hi]
    decreases |s|
  {
    hide Runs, RunLength, Stretch;
    FirstRun(s, k);
    FirstStretch(s, k);
    var n := RunLength(s, k);
    if i == 0 {
      lo, hi := 0, n;
    } else {
      lo, hi := RunIsStretch(s[n..], i - 1, k);
      LaterStretch(s, n, lo, hi, k);
      lo, hi := lo + n, hi + n;
    }
  }

  /** Some stretch has more than 4300 decimal digits, or nothing but digits that are not decimal. */
  ghost predicate HasUnconvertible(s: string, k: Script) {
    exists lo, hi :: Stretch(s, lo, hi, k)
      && if Decimals(s[lo], k) then hi - lo > 4300 else forall i :: lo <= i < hi ==> k.other(s[i])
  }

  lemma StretchConverts(s: string, lo: int, hi: int, k: Script)
    requires Stretch(s, lo, hi, k)
    ensures Unconvertible(s[lo..hi], k)
            <==> if Decimals(s[lo], k) then hi - lo > 4300 else forall i :: lo <= i < hi ==> k.other(s[i])
  {
    var run := s[lo..hi];
    assert forall i :: 0 <= i < |run| ==> run[i] == s[lo + i];
    assert forall i :: lo <= i < hi ==> s[i] == run[i - lo];
    assert DigitRun(run, k) <==> Decimals(run[0], k);
  }

  lemma UnconvertibleIff(s: string, k: Script)
    ensures (exists i :: 0 <= i < |Runs(s, k)| && Unconvertible(Runs(s, k)[i], k)) <==> HasUnconvertible(s, k)
  {
    hide Unconvertible, Runs, Decimals;
    if i :| 0 <= i < |Runs(s, k)| && Unconvertible(Runs(s, k)[i], k) {
      var lo, hi := RunIsStretch(s, i, k);
      StretchConverts(s, lo, hi, k);
    }
    if lo, hi :|
      Stretch(s, lo, hi, k)
      && if Decimals(s[lo], k) then hi - lo > 4300 else forall i :: lo <= i < hi ==> k.other(s[i])
    {
      StretchConverts(s, lo, hi, k);
      StretchIsRun(s, lo, hi, k);
      var i :| 0 <= i < |Runs(s, k)| && Runs(s, k)[i] == s[lo..hi];
    }
  }

  // ----- leading zeros

  /** The digits of a run in ASCII. */
  function Plain(run: string, k: Script): (r: string)
    requires Sensible(k) && DigitRun(run, k)
    ensures Digits(r) && |r| == |run|
  {
    seq(|run|, i requires 0 <= i < |run| => DigitChar(k.digit(run[i]).value))
  }

  /** A run of digits without leading zeros; the last zero of "000" stays. */
  function Trimmed(run: string): string {
    if |run| > 1 && run[0] == '0' then Trimmed(run[1..]) else run
  }

  /** A run as it compares: digits are written in ASCII and lose their leading zeros. */
  function Shown(run: string, k: Script): string
    requires Sensible(k)
  {
    if DigitRun(run, k) then Trimmed(Plain(run, k)) else run
  }

  function ShownRuns(runs: seq<string>, k: Script): seq<string>
    requires Sensible(k)
  {
    seq(|runs|, i requires 0 <= i < |runs| => Shown(runs[i], k))
  }

  /** The folded version with leading zeros dropped and digits written in ASCII. */
  function WithoutZeros(value: string, k: Script): string
    requires Sensible(k)
  {
    Concat(ShownRuns(Runs(k.fold(value), k), k))
  }

  lemma {:induction false} TrimmedLast(run: string, c: char)
    requires Digits(run) && IsDigit(c)
    ensures Trimmed(run + [c]) == if Trimmed(run) == "0" then [c] else Trimmed(run) + [c]
    decreases |run|
  {
    if |run| == 1 {
      assert (run + [c])[1..] == [c];
    } else {
      assert (run + [c])[1..] == run[1..] + [c];
      if run[0] == '0' {
        TrimmedLast(run[1..], c);
      } else {
        assert |Trimmed(run)| > 1;
      }
    }
  }

  lemma DecimalNext(n: nat, d: nat)
    requires d < 10
    ensures Decimal(n * 10 + d) == if n == 0 then [DigitChar(d)] else Decimal(n) + [DigitChar(d)]
  {
    assert (n * 10 + d) / 10 == n && (n * 10 + d) % 10 == d;
  }

  lemma DecimalIsZero(n: nat)
    ensures Decimal(n) == "0" <==> n == 0
  {
    if n >= 10 {
      assert |Decimal(n)| > 1;
    }
  }

  lemma PlainLast(run: string, k: Script)
    requires Sensible(k) && DigitRun(run, k) && |run| > 1
    ensures var n := |run| - 1;
            DigitRun(run[..n], k) && Plain(run, k) == Plain(run[..n], k) + [DigitChar(k.digit(run[n]).value)]
  {
  }

  /** Writing the number that a run of digits stands for gives the run without leading zeros. */
  lemma {:induction false} DecimalOfValue(run: string, k: Script)
    requires Sensible(k) && DigitRun(run, k)
    ensures Decimal(ValueOf(run, k)) == Trimmed(Plain(run, k))
    decreases |run|
  {
    var n := |run| - 1;
    if n == 0 {
      assert Plain(run, k) == [DigitChar(k.digit(run[0]).value)];
    } else {
      DecimalOfValue(run[..n], k);
      PlainLast(run, k);
      hide Plain, Trimmed, Decimal;
      TrimmedLast(Plain(run[..n], k), DigitChar(k.digit(run[n]).value));
      DecimalNext(ValueOf(run[..n], k), k.digit(run[n]).value);
      DecimalIsZero(ValueOf(run[..n], k));
    }
  }

  lemma {:induction false} DecimalIsInjective(m: nat, n: nat)
    requires Decimal(m) == Decimal(n)
    ensures m == n
    decreases m
  {
    assert m >= 10 ==> |Decimal(m)| > 1;
    assert n >= 10 ==> |Decimal(n)| > 1;
    if m >= 10 && n >= 10 {
      var a, b := Decimal(m), Decimal(n);
      assert a[..|a| - 1] == Decimal(m / 10) && b[..|b| - 1] == Decimal(n / 10);
      assert a[|a| - 1] == DigitChar(m % 10) && b[|b| - 1] == DigitChar(n % 10);
      DecimalIsInjective(m / 10, n / 10);
    }
  }

  lemma ShownIsUniform(run: string, k: Script)
    requires Sensible(k) && run != "" && Uniform(run, k)
    ensures Shown(run, k) != "" && Uniform(Shown(run, k), k)
    ensures DigitRun(Shown(run, k), k) == DigitRun(run, k) == Decimals(run[0], k)
  {
    if DigitRun(run, k) {
      DecimalOfValue(run, k);
      var r := Shown(run, k);
      assert Digits(r);
      forall i | 0 <= i < |r| ensures Decimals(r[i], k) {
        assert r[i] == DigitChar((r[i] - '0') as nat);
      }
    }
  }

  /** Two runs show alike iff they are parts alike. */
  lemma SamePartIff(a: string, b: string, k: Script)
    requires Sensible(k) && a != "" && b != "" && Uniform(a, k) && Uniform(b, k)
    ensures PartOf(a, k) == PartOf(b, k) <==> Shown(a, k) == Shown(b, k)
  {
    ShownIsUniform(a, k);
    ShownIsUniform(b, k);
    if DigitRun(a, k) && DigitRun(b, k) {
      DecimalOfValue(a, k);
      DecimalOfValue(b, k);
      if Shown(a, k) == Shown(b, k) {
        DecimalIsInjective(ValueOf(a, k), ValueOf(b, k));
      }
    }
  }

  lemma ShownAlternate(runs: seq<string>, k: Script)
    requires Sensible(k) && Alternating(runs, k)
    ensures Alternating(ShownRuns(runs, k), k)
  {
    hide Sensible, Uniform, DigitRun, Shown;
    forall i | 0 <= i < |runs|
      ensures Shown(runs[i], k) != "" && Uniform(Shown(runs[i], k), k)
      ensures DigitRun(Shown(runs[i], k), k) == DigitRun(runs[i], k)
    {
      ShownIsUniform(runs[i], k);
    }
  }

  lemma SameRunsIff(x: seq<string>, y: seq<string>, k: Script)
    requires Sensible(k)
    requires forall i :: 0 <= i < |x| ==> x[i] != "" && Uniform(x[i], k)
    requires forall i :: 0 <= i < |y| ==> y[i] != "" && Uniform(y[i], k)
    ensures PartsOf(x, k) == PartsOf(y, k) <==> ShownRuns(x, k) == ShownRuns(y, k)
  {
    hide Sensible, PartOf, Shown, Uniform;
    forall i | 0 <= i < |x| && i < |y|
      ensures PartOf(x[i], k) == PartOf(y[i], k) <==> Shown(x[i], k) == Shown(y[i], k)
    {
      SamePartIff(x[i], y[i], k);
    }
    if PartsOf(x, k) == PartsOf(y, k) {
      assert |PartsOf(x, k)| == |x| && |PartsOf(y, k)| == |y|;
      forall i | 0 <= i < |x| ensures ShownRuns(x, k)[i] == ShownRuns(y, k)[i] {
        assert PartsOf(x, k)[i] == PartsOf(y, k)[i];
      }
      assert ShownRuns(x, k) == ShownRuns(y, k);
    }
    if ShownRuns(x, k) == ShownRuns(y, k) {
      assert |ShownRuns(x, k)| == |x| && |ShownRuns(y, k)| == |y|;
      forall i | 0 <= i < |x| ensures PartsOf(x, k)[i] == PartsOf(y, k)[i] {
        assert ShownRuns(x, k)[i] == ShownRuns(y, k)[i];
      }
      assert PartsOf(x, k) == PartsOf(y, k);
    }
  }

  /**
   * Two versions have the same parts exactly when they differ in letter case, leading zeros and the script of their
   * digits only.
   */
  lemma SamePartsIff(a: string, b: string, k: Script)
    requires Sensible(k) && VersionParts(a, k).Some? && VersionParts(b, k).Some?
    ensures VersionParts(a, k) == VersionParts(b, k) <==> WithoutZeros(a, k) == WithoutZeros(b, k)
  {
    var x, y := Runs(k.fold(a), k), Runs(k.fold(b), k);
    RunsAlternate(k.fold(a), k);
    RunsAlternate(k.fold(b), k);
    assert VersionParts(a, k).value == PartsOf(x, k) && VersionParts(b, k).value == PartsOf(y, k);
    hide Sensible, Runs, VersionParts, PartOf, Shown, Unconvertible;
    ShownAlternate(x, k);
    ShownAlternate(y, k);
    RunsOfConcat(ShownRuns(x, k), k);
    RunsOfConcat(ShownRuns(y, k), k);
    SameRunsIff(x, y, k);
  }

  // ----- comparing

  predicate PartLess(a: Part, b: Part) {
    match (a, b)
    case (Number(m), Number(n)) => m < n
    case (Number(_), Text(_)) => true
    case (Text(_), Number(_)) => false
    case (Text(t), Text(u)) => Less(t, u)
  }

  /** The host language's order on tuples: the first difference decides, and a shorter beginning comes first. */
  predicate PartsLess(a: seq<Part>, b: seq<Part>) {
    b != [] && (a == [] || if a[0] == b[0] then PartsLess(a[1..], b[1..]) else PartLess(a[0], b[0]))
  }

  lemma PartOrder(a: Part, b: Part, c: Part)
    ensures !PartLess(a, a)
    ensures a == b || PartLess(a, b) || PartLess(b, a)
    ensures PartLess(a, b) && PartLess(b, c) ==> PartLess(a, c)
  {
    if a.Text? { LessIrreflexive(a.text); }
    if a.Text? && b.Text? { LessTotal(a.text, b.text); }
    if a.Text? && b.Text? && c.Text? && PartLess(a, b) && PartLess(b, c) { LessTransitive(a.text, b.text, c.text); }
  }

  lemma {:induction false} PartsLessIrreflexive(a: seq<Part>)
    ensures !PartsLess(a, a)
  {
    if a != [] {
      PartsLessIrreflexive(a[1..]);
    }
  }

  lemma {:induction false} PartsLessTransitive(a: seq<Part>, b: seq<Part>, c: seq<Part>)
    requires PartsLess(a, b) && PartsLess(b, c)
    ensures PartsLess(a, c)
  {
    if a != [] {
      PartOrder(a[0], b[0], c[0]);
      PartOrder(b[0], a[0], c[0]);
      if a[0] == b[0] == c[0] {
        PartsLessTransitive(a[1..], b[1..], c[1..]);
      }
    }
  }

  lemma {:induction false} PartsLessTotal(a: seq<Part>, b: seq<Part>)
    ensures a == b || PartsLess(a, b) || PartsLess(b, a)
  {
    if a != [] && b != [] {
      PartOrder(a[0], b[0], a[0]);
      if a[0] == b[0] {
        PartsLessTotal(a[1..], b[1..]);
        assert a == [a[0]] + a[1..] && b == [b[0]] + b[1..];
      }
    }
  }

  /** Smaller numbers first, numbers before texts, and texts by their characters. */
  predicate Precedes(a: Part, b: Part) {
    if a.Number? && b.Number? then a.value < b.value
    else if a.Text? && b.Text? then Less(a.text, b.text)
    else a.Number?
  }

  /** The parts agree before the `i`-th one, and there the first version ends or has the part that precedes. */
  predicate DecidedAt(a: seq<Part>, b: seq<Part>, i: nat) {
    i <= |a| && i < |b| && a[..i] == b[..i] && (i == |a| || Precedes(a[i], b[i]))
  }

  lemma NotItself(a: Part)
    ensures !Precedes(a, a)
  {
    if a.Text? {
      LessIrreflexive(a.text);
    }
  }

  lemma AgreeAtFirst(a: seq<Part>, b: seq<Part>)
    ensures forall i: nat :: DecidedAt(a, b, i) && i > 0 ==> a != [] && b != [] && a[0] == b[0]
  {
    forall i: nat | DecidedAt(a, b, i) && i > 0 ensures a != [] && b != [] && a[0] == b[0] {
      assert a[..i][0] == a[0] && b[..i][0] == b[0];
    }
  }

  /** A version comes before another iff it is its beginning, or its part precedes where they first differ. */
  lemma {:induction false} PartsLessIff(a: seq<Part>, b: seq<Part>)
    ensures PartsLess(a, b) <==> exists i: nat :: DecidedAt(a, b, i)
    decreases |a|
  {
    hide Less;
    AgreeAtFirst(a, b);
    if a == [] || b == [] || a[0] != b[0] {
      assert b != [] && (a == [] || Precedes(a[0], b[0])) ==> DecidedAt(a, b, 0);
    } else {
      PartOrder(a[0], a[0], a[0]);
      PartsLessIff(a[1..], b[1..]);
      if i: nat :| DecidedAt(a[1..], b[1..], i) {
        assert a[..i + 1] == [a[0]] + a[1..][..i] && b[..i + 1] == [b[0]] + b[1..][..i];
        assert DecidedAt(a, b, i + 1);
      }
      if i: nat :| DecidedAt(a, b, i) {
        NotItself(a[0]);
        assert a[1..][..i - 1] == a[..i][1..] && b[1..][..i - 1] == b[..i][1..];
        assert DecidedAt(a[1..], b[1..], i - 1);
      }
    }
  }

  datatype Operator = Before | NotAfter | NotBefore | After

  predicate Holds(op: Operator, left: seq<Part>, right: seq<Part>) {
    match op
    case Before => PartsLess(left, right)
    case NotAfter => PartsLess(left, right) || left == right
    case NotBefore => PartsLess(right, left) || left == right
    case After => PartsLess(right, left)
  }

  /** The ordering operators of a posture condition on versions; `None` when the condition is unsupported. */
  function Compare(op: Operator, actual: string, expected: string, k: Script): Option<bool> {
    var left, right := VersionParts(actual, k), VersionParts(expected, k);
    if left.None? || right.None? then None else Some(Holds(op, left.value, right.value))
  }

  /** A comparison is unsupported iff a longest stretch of one of the folded versions cannot be converted. */
  lemma UnsupportedIff(op: Operator, a: string, b: string, k: Script)
    ensures Compare(op, a, b, k).None? <==> HasUnconvertible(k.fold(a), k) || HasUnconvertible(k.fold(b), k)
  {
    hide HasUnconvertible, Runs, Unconvertible, PartsOf;
    UnconvertibleIff(k.fold(a), k);
    UnconvertibleIff(k.fold(b), k);
    assert VersionParts(a, k).None? <==> HasUnconvertible(k.fold(a), k);
    assert VersionParts(b, k).None? <==> HasUnconvertible(k.fold(b), k);
  }

  /** The parts of a version, one for each of its runs: the number that a run of digits writes, or the run as text. */
  lemma PartsAre(value: string, k: Script) returns (runs: seq<string>)
    requires Sensible(k) && VersionParts(value, k).Some?
    ensures Concat(runs) == k.fold(value) && Alternating(runs, k)
    ensures var parts := VersionParts(value, k).value;
            && |parts| == |runs|
            && forall i :: 0 <= i < |runs| ==>
                 if DigitRun(runs[i], k)
                 then parts[i].Number? && Decimal(parts[i].value) == Trimmed(Plain(runs[i], k))
                 else parts[i] == Text(runs[i])
  {
    runs := Runs(k.fold(value), k);
    RunsMakeUp(k.fold(value), k);
    RunsAlternate(k.fold(value), k);
    hide Runs, Alternating, Trimmed, Plain, Decimal, ValueOf, Unconvertible;
    forall i | 0 <= i < |runs| && DigitRun(runs[i], k)
      ensures Decimal(ValueOf(runs[i], k)) == Trimmed(Plain(runs[i], k))
    {
      DecimalOfValue(runs[i], k);
    }
  }

  /**
   * What each operator answers: before and after ask where the versions first differ, the other two also hold of
   * versions with equal parts. So 1.2 comes before 1.10, which comes before 1.10rc1 and 2.
   */
  lemma OperatorsMean(a: string, b: string, k: Script)
    requires VersionParts(a, k).Some? && VersionParts(b, k).Some?
    ensures var x, y := VersionParts(a, k).value, VersionParts(b, k).value;
            && (Compare(Before, a, b, k) == Some(true) <==> exists i: nat :: DecidedAt(x, y, i))
            && (Compare(After, a, b, k) == Some(true) <==> exists i: nat :: DecidedAt(y, x, i))
            && (Compare(NotAfter, a, b, k) == Some(true) <==> x == y || exists i: nat :: DecidedAt(x, y, i))
            && (Compare(NotBefore, a, b, k) == Some(true) <==> x == y || exists i: nat :: DecidedAt(y, x, i))
  {
    hide VersionParts, PartsLess, DecidedAt;
    PartsLessIff(VersionParts(a, k).value, VersionParts(b, k).value);
    PartsLessIff(VersionParts(b, k).value, VersionParts(a, k).value);
  }

  /**
   * The four operators order the versions that they support: each is the negation of its opposite, exactly one of
   * before, after and the same up to case, leading zeros and script holds, and before is transitive.
   */
  lemma OperatorsAgree(a: string, b: string, c: string, k: Script)
    requires Sensible(k)
    requires VersionParts(a, k).Some? && VersionParts(b, k).Some? && VersionParts(c, k).Some?
    ensures Compare(NotAfter, a, b, k).value == !Compare(After, a, b, k).value
    ensures Compare(NotBefore, a, b, k).value == !Compare(Before, a, b, k).value
    ensures Compare(After, a, b, k) == Compare(Before, b, a, k)
    ensures !(Compare(Before, a, b, k).value && Compare(After, a, b, k).value)
    ensures Compare(NotAfter, a, b, k).value && Compare(NotBefore, a, b, k).value
            <==> WithoutZeros(a, k) == WithoutZeros(b, k)
    ensures Compare(Before, a, b, k).value && Compare(Before, b, c, k).value ==> Compare(Before, a, c, k).value
  {
    hide VersionParts, Sensible, WithoutZeros, PartsLess;
    var x, y, z := VersionParts(a, k).value, VersionParts(b, k).value, VersionParts(c, k).value;
    SamePartsIff(a, b, k);
    PartsLessTotal(x, y);
    PartsLessIrreflexive(x);
    if PartsLess(x, y) && PartsLess(y, x) { PartsLessTransitive(x, y, x); }
    if PartsLess(x, y) && PartsLess(y, z) { PartsLessTransitive(x, y, z); }
  }

  /** A script that knows the digits of ASCII only is sensible, whatever its case folding. */
  lemma AsciiIsSensible(fold: string -> string)
    ensures Sensible(Script(fold, c => if IsDigit(c) then Some(DigitValue(c)) else None, c => false))
  {
  }
}
