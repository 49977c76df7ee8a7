/**
 * The molecular-formula display pipe: every maximal run of ASCII digits is
 * wrapped in `<sub>` and `</sub>` (the global replacement of `(\d+)`).
 */
module FormulaPipe {

  const Open := "<sub>"
  const Close := "</sub>"

  predicate IsDigit(c: char) {
    '0' <= c <= '9'
  }

  predicate AllDigits(s: string) {
    forall i :: 0 <= i < |s| ==> IsDigit(s[i])
  }

  /** The length of the digit run `s` starts with. */
  function DigitRun(s: string): (n: nat)
    ensures n <= |s| && AllDigits(s[..n])
    ensures n < |s| ==> !IsDigit(s[n])
  {
    if s == [] || !IsDigit(s[0]) then 0
    else
      var n := 1 + DigitRun(s[1..]);
      assert s[..n] == [s[0]] + s[1..][..n - 1];
      n
  }

  /** `SubMolecularFormula.transform`. */
  function Transform(s: string): (r: string)
    ensures |r| >= |s|
    ensures r == [] <==> s == []
    decreases |s|
  {
    if s == [] then []
    else if IsDigit(s[0]) then
      var n := DigitRun(s);
      Open + s[..n] + Close + Transform(s[n..])
    else [s[0]] + Transform(s[1..])
  }

  /* ---------- deleting the tags ---------- */

  /** Deletes every `<sub>` and `</sub>` from `t`, left to right. */
  function StripTags(t: string): string
    decreases |t|
  {
    if t == [] then []
    else if |t| >= |Open| && t[..|Open|] == Open then StripTags(t[|Open|..])
    else if |t| >= |Close| && t[..|Close|] == Close then StripTags(t[|Close|..])
    else [t[0]] + StripTags(t[1..])
  }

  lemma {:induction false} StripPlain(x: string, y: string)
    requires '<' !in x
    ensures StripTags(x + y) == x + StripTags(y)
    decreases |x|
  {
    if x != [] {
      assert (x + y)[0] == x[0];
      assert (x + y)[1..] == x[1..] + y;
      StripPlain(x[1..], y);
    } else {
      assert x + y == y;
    }
  }

  lemma NoAngleParts(s: string, n: nat)
    requires '<' !in s && n <= |s|
    ensures '<' !in s[..n] && '<' !in s[n..]
  {
    assert forall c :: c in s[..n] ==> c in s;
    assert forall c :: c in s[n..] ==> c in s;
  }

  /** Deleting the tags from `<sub>` + x + `</sub>` + y, where x has no `<`. */
  lemma {:induction false} StripWrapped(x: string, y: string)
    requires '<' !in x
    ensures StripTags(Open + x + Close + y) == x + StripTags(y)
  {
    var t := Open + x + Close + y;
    assert t[..|Open|] == Open;
    assert t[|Open|..] == x + (Close + y);
    StripPlain(x, Close + y);
    var u := Close + y;
    assert u[..|Open|] != Open by {
      assert u[1] == '/';
    }
    assert u[..|Close|] == Close;
    assert u[|Close|..] == y;
  }

  /** The tags the pipe inserts are the only ones deleted: the input comes back. */
  lemma {:induction false} StripTransform(s: string)
    requires '<' !in s
    ensures StripTags(Transform(s)) == s
    decreases |s|
  {
    if s != [] {
      if IsDigit(s[0]) {
        var n := DigitRun(s);
        NoAngleParts(s, n);
        StripWrapped(s[..n], Transform(s[n..]));
        StripTransform(s[n..]);
        assert s[..n] + s[n..] == s;
      } else {
        var t := [s[0]] + Transform(s[1..]);
        assert t[0] == s[0] && t[1..] == Transform(s[1..]);
        assert s[0] != '<';
        assert !(|t| >= |Open| && t[..|Open|] == Open) && !(|t| >= |Close| && t[..|Close|] == Close) by {
          if |t| >= |Open| {
            assert t[..|Open|][0] == s[0];
          }
          if |t| >= |Close| {
            assert t[..|Close|][0] == s[0];
          }
        }
        StripTransform(s[1..]);
      }
    }
  }

  /** A string without digits comes out unchanged. */
  lemma {:induction false} NoDigitsUnchanged(s: string)
    requires forall i :: 0 <= i < |s| ==> !IsDigit(s[i])
    ensures Transform(s) == s
    decreases |s|
  {
    if s != [] {
      NoDigitsUnchanged(s[1..]);
    }
  }

  /* ---------- maximal runs ---------- */

  /**
   * The number of maximal digit runs: the positions holding a digit whose
   * predecessor (if `afterDigit`, the character before `s`) is no digit.
   */
  function RunsFrom(s: string, afterDigit: bool): nat
    decreases |s|
  {
    if s == [] then 0
    else (if IsDigit(s[0]) && !afterDigit then 1 else 0) + RunsFrom(s[1..], IsDigit(s[0]))
  }

  function Runs(s: string): nat {
    RunsFrom(s, false)
  }

  /** Occurrences of `<sub>` in `t`. */
  function CountOpen(t: string): nat
    decreases |t|
  {
    if t == [] then 0
    else (if |t| >= |Open| && t[..|Open|] == Open then 1 else 0) + CountOpen(t[1..])
  }

  lemma {:induction false} CountPlain(x: string, y: string)
    requires '<' !in x
    ensures CountOpen(x + y) == CountOpen(y)
    decreases |x|
  {
    if x != [] {
      assert (x + y)[0] == x[0];
      assert (x + y)[1..] == x[1..] + y;
      CountPlain(x[1..], y);
    } else {
      assert x + y == y;
    }
  }

  /** A run of digits, after a digit, adds no run start; the first non-digit ends it. */
  lemma {:induction false} RunsAfterDigits(d: string, rest: string, afterDigit: bool)
    requires AllDigits(d)
    requires rest == [] || !IsDigit(rest[0])
    ensures RunsFrom(d + rest, true) == RunsFrom(rest, false)
    decreases |d|
  {
    if d != [] {
      assert (d + rest)[1..] == d[1..] + rest;
      RunsAfterDigits(d[1..], rest, true);
    } else {
      assert d + rest == rest;
      if rest != [] {
        assert RunsFrom(rest, true) == RunsFrom(rest[1..], IsDigit(rest[0]));
      }
    }
  }

  /** `<sub>` + x + `</sub>` + y holds one more `<sub>` than y, when x has no `<`. */
  lemma {:induction false} CountWrapped(x: string, y: string)
    requires '<' !in x
    ensures CountOpen(Open + x + Close + y) == 1 + CountOpen(y)
  {
    var t := Open + x + Close + y;
    assert t[..|Open|] == Open;
    assert t[1..] == ("sub>" + x) + (Close + y);
    CountPlain("sub>" + x, Close + y);
    var u := Close + y;
    assert u[..|Open|] != Open by {
      assert u[1] == '/';
    }
    assert u[1..] == "/sub>" + y;
    CountPlain("/sub>", y);
  }

  /** One `<sub>` per maximal digit run of the input. */
  lemma {:induction false} OneOpenPerRun(s: string)
    requires '<' !in s
    ensures CountOpen(Transform(s)) == Runs(s)
    decreases |s|
  {
    if s != [] {
      if IsDigit(s[0]) {
        var n := DigitRun(s);
        NoAngleParts(s, n);
        CountWrapped(s[..n], Transform(s[n..]));
        OneOpenPerRun(s[n..]);
        assert s[1..] == s[..n][1..] + s[n..];
        RunsAfterDigits(s[..n][1..], s[n..], true);
      } else {
        var t := [s[0]] + Transform(s[1..]);
        assert t[1..] == Transform(s[1..]);
        assert s[0] != '<';
        assert !(|t| >= |Open| && t[..|Open|] == Open) by {
          if |t| >= |Open| {
            assert t[..|Open|][0] == s[0];
          }
        }
        OneOpenPerRun(s[1..]);
      }
    }
  }

  /* ---------- wrapping one run ---------- */

  /** A prefix that does not end in a digit does not affect the rest. */
  lemma {:induction false} TransformAppend(a: string, b: string)
    requires a == [] || !IsDigit(a[|a| - 1])
    ensures Transform(a + b) == Transform(a) + Transform(b)
    decreases |a|
  {
    if a == [] {
      assert a + b == b;
    } else if IsDigit(a[0]) {
      var n := DigitRun(a);
      assert n < |a|;
      assert DigitRun(a + b) == n by {
        DigitRunPrefix(a, b);
      }
      assert (a + b)[..n] == a[..n];
      assert (a + b)[n..] == a[n..] + b;
      TransformAppend(a[n..], b);
      Assoc(Open + a[..n] + Close, Transform(a[n..]), Transform(b));
    } else {
      assert (a + b)[0] == a[0];
      assert (a + b)[1..] == a[1..] + b;
      TransformAppend(a[1..], b);
      Assoc([a[0]], Transform(a[1..]), Transform(b));
    }
  }

  lemma {:induction false} DigitRunPrefix(a: string, b: string)
    requires DigitRun(a) < |a|
    ensures DigitRun(a + b) == DigitRun(a)
    decreases |a|
  {
    if IsDigit(a[0]) {
      assert (a + b)[1..] == a[1..] + b;
      DigitRunPrefix(a[1..], b);
    }
  }

  lemma {:induction false} DigitRunAll(d: string, b: string)
    requires AllDigits(d)
    requires b == [] || !IsDigit(b[0])
    ensures DigitRun(d + b) == |d|
    decreases |d|
  {
    if d != [] {
      assert (d + b)[1..] == d[1..] + b;
      DigitRunAll(d[1..], b);
    } else {
      assert d + b == b;
    }
  }

  /**
   * A maximal digit run `d` between `a` and `b` comes out as
   * `<sub>d</sub>`, and the text around it is transformed on its own.
   */
  lemma {:induction false} RunThenRest(d: string, b: string)
    requires d != [] && AllDigits(d)
    requires b == [] || !IsDigit(b[0])
    ensures Transform(d + b) == Open + d + Close + Transform(b)
  {
    DigitRunAll(d, b);
    var db := d + b;
    assert db[..|d|] == d;
    assert db[|d|..] == b;
  }

  lemma {:induction false} MaximalRunWrapped(a: string, d: string, b: string)
    requires a == [] || !IsDigit(a[|a| - 1])
    requires d != [] && AllDigits(d)
    requires b == [] || !IsDigit(b[0])
    ensures Transform(a + d + b) == Transform(a) + Open + d + Close + Transform(b)
  {
    var x := d + b;
    var tb := Transform(b);
    var ta := Transform(a);
    assert a + d + b == a + x;
    TransformAppend(a, x);
    RunThenRest(d, b);
    assert Transform(a + x) == ta + Transform(x);
    assert Transform(x) == Open + d + Close + tb;
    Regroup(ta, Open, d, Close, tb);
  }

  lemma Assoc(p: string, q: string, r: string)
    ensures p + (q + r) == p + q + r
  {
  }

  lemma Regroup(p: string, q: string, r: string, s: string, t: string)
    ensures p + (q + r + s + t) == p + q + r + s + t
  {
  }
}
