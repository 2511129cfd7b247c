/** The column statistics the dashboard takes from pandas: skip-null sum,
    mean, minimum and maximum of numbers, and the first mode of text values. */
module Stats {

  function Sum(xs: seq<real>): real {
    if xs == [] then 0.0 else xs[0] + Sum(xs[1..])
  }

  /** `Series.mean()` over the present values. */
  function Mean(xs: seq<real>): (m: real)
    requires |xs| > 0
    ensures m * (|xs| as real) == Sum(xs)
  {
    Sum(xs) / (|xs| as real)
  }

  /** `Series.min()` over the present values. */
  function Min(xs: seq<real>): (m: real)
    requires |xs| > 0
    ensures m in xs
    ensures forall k :: 0 <= k < |xs| ==> m <= xs[k]
  {
    if |xs| == 1 then xs[0]
    else
      var rest := Min(xs[1..]);
      assert forall k :: 1 <= k < |xs| ==> xs[k] == xs[1..][k - 1];
      if xs[0] <= rest then xs[0] else rest
  }

  /** `Series.max()` over the present values. */
  function Max(xs: seq<real>): (m: real)
    requires |xs| > 0
    ensures m in xs
    ensures forall k :: 0 <= k < |xs| ==> xs[k] <= m
  {
    if |xs| == 1 then xs[0]
    else
      var rest := Max(xs[1..]);
      assert forall k :: 1 <= k < |xs| ==> xs[k] == xs[1..][k - 1];
      if rest <= xs[0] then xs[0] else rest
  }

  lemma {:induction false} SumAtLeast(xs: seq<real>, lo: real)
    requires forall k :: 0 <= k < |xs| ==> lo <= xs[k]
    ensures (|xs| as real) * lo <= Sum(xs)
  {
    if xs != [] {
      SumAtLeast(xs[1..], lo);
    }
  }

  lemma {:induction false} SumAtMost(xs: seq<real>, hi: real)
    requires forall k :: 0 <= k < |xs| ==> xs[k] <= hi
    ensures Sum(xs) <= (|xs| as real) * hi
  {
    if xs != [] {
      SumAtMost(xs[1..], hi);
    }
  }

  lemma AverageAtLeast(xs: seq<real>, lo: real)
    requires |xs| > 0
    requires forall k :: 0 <= k < |xs| ==> lo <= xs[k]
    ensures lo <= Sum(xs) / (|xs| as real)
  {
    SumAtLeast(xs, lo);
  }

  lemma AverageAtMost(xs: seq<real>, hi: real)
    requires |xs| > 0
    requires forall k :: 0 <= k < |xs| ==> xs[k] <= hi
    ensures Sum(xs) / (|xs| as real) <= hi
  {
    SumAtMost(xs, hi);
  }

  /** The mean lies between the smallest and the largest present value. */
  lemma MeanWithinRange(xs: seq<real>)
    requires |xs| > 0
    ensures Min(xs) <= Mean(xs) <= Max(xs)
  {
    AverageAtLeast(xs, Min(xs));
    AverageAtMost(xs, Max(xs));
  }

  /** Lexicographic order by code point, as Python compares strings. */
  predicate LexLe(a: string, b: string) {
    if a == [] then true
    else if b == [] then false
    else a[0] < b[0] || (a[0] == b[0] && LexLe(a[1..], b[1..]))
  }

  lemma {:induction false} LexTotal(a: string, b: string)
    ensures LexLe(a, b) || LexLe(b, a)
  {
    if a != [] && b != [] && a[0] == b[0] {
      LexTotal(a[1..], b[1..]);
    }
  }

  lemma {:induction false} LexTransitive(a: string, b: string, c: string)
    requires LexLe(a, b) && LexLe(b, c)
    ensures LexLe(a, c)
  {
    if a != [] && b != [] && c != [] && a[0] == b[0] && b[0] == c[0] {
      LexTransitive(a[1..], b[1..], c[1..]);
    }
  }

  lemma {:induction false} LexAntisymmetric(a: string, b: string)
    requires LexLe(a, b) && LexLe(b, a)
    ensures a == b
  {
    if a != [] && b != [] {
      LexAntisymmetric(a[1..], b[1..]);
      assert a == [a[0]] + a[1..];
      assert b == [b[0]] + b[1..];
    }
  }

  /** `s` occurs in `xs` at least as often as any other value. */
  ghost predicate IsMode(s: string, xs: seq<string>) {
    s in xs && forall v :: multiset(xs)[v] <= multiset(xs)[s]
  }

  /** `s` is the value `mode()[0]` returns: pandas sorts the most frequent
      values, so it is the smallest of them. */
  ghost predicate IsFirstMode(s: string, xs: seq<string>) {
    IsMode(s, xs) && forall v :: IsMode(v, xs) ==> LexLe(s, v)
  }

  /** The most frequent of `cands` in `xs`, the smallest one on a tie. */
  function ModeAmong(xs: seq<string>, cands: seq<string>): (s: string)
    requires |cands| > 0
    ensures s in cands
    ensures forall k :: 0 <= k < |cands| ==> multiset(xs)[cands[k]] <= multiset(xs)[s]
    ensures forall k :: 0 <= k < |cands| && multiset(xs)[cands[k]] == multiset(xs)[s] ==> LexLe(s, cands[k])
  {
    if |cands| == 1 then
      LexTotal(cands[0], cands[0]);
      cands[0]
    else
      var best := ModeAmong(xs, cands[1..]);
      assert forall k :: 1 <= k < |cands| ==> cands[k] == cands[1..][k - 1];
      var c := cands[0];
      if multiset(xs)[c] > multiset(xs)[best] || (multiset(xs)[c] == multiset(xs)[best] && LexLe(c, best)) then
        assert forall k :: 1 <= k < |cands| && multiset(xs)[cands[k]] == multiset(xs)[c] ==> LexLe(c, cands[k]) by {
          forall k | 1 <= k < |cands| && multiset(xs)[cands[k]] == multiset(xs)[c]
            ensures LexLe(c, cands[k])
          {
            LexTransitive(c, best, cands[k]);
          }
        }
        LexTotal(c, c);
        c
      else
        LexTotal(c, best);
        best
  }

  /** `Series.mode()[0]` over the present values. */
  function Mode(xs: seq<string>): (s: string)
    requires |xs| > 0
    ensures IsFirstMode(s, xs)
  {
    var s := ModeAmong(xs, xs);
    assert forall v :: multiset(xs)[v] <= multiset(xs)[s] by {
      forall v ensures multiset(xs)[v] <= multiset(xs)[s] {
        if v in xs {
          var k :| 0 <= k < |xs| && xs[k] == v;
        }
      }
    }
    assert forall v :: IsMode(v, xs) ==> LexLe(s, v) by {
      forall v | IsMode(v, xs) ensures LexLe(s, v) {
        var k :| 0 <= k < |xs| && xs[k] == v;
      }
    }
    s
  }

  /** The first mode is determined by the values alone. */
  lemma FirstModeUnique(s: string, s': string, xs: seq<string>)
    requires IsFirstMode(s, xs) && IsFirstMode(s', xs)
    ensures s == s'
  {
    LexAntisymmetric(s, s');
  }
}
