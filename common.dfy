/** Shared vocabulary of the detector model: optional values, sums and
    extrema over sequences of reals, successive differences, a stable sort
    by a real key, and the numeric library routines that the model does
    not define itself. */
module Common {

  datatype Option<T> = None | Some(value: T)

  /** The numeric library routines the detector calls, as uninterpreted
      functions: square root, a density histogram with a given number of
      bins, Shannon entropy of a (not necessarily normalised) weight
      vector, and the power spectrum |rfft(x)|^2 of a real signal. */
  datatype Numerics = Numerics(
    sqrt: real -> real,
    histogram: (seq<real>, nat) -> seq<real>,
    entropy: seq<real> -> real,
    power: seq<real> -> seq<real>)
  {
    /** The only facts about the library the model relies on. */
    ghost predicate Sound()
    {
      && sqrt(0.0) == 0.0
      && (forall v :: v >= 0.0 ==> sqrt(v) >= 0.0)
      && (forall v :: v > 0.0 ==> sqrt(v) > 0.0)
      && (forall x, bins :: |histogram(x, bins)| == bins)
      && (forall x, bins, i :: 0 <= i < |histogram(x, bins)| ==> histogram(x, bins)[i] >= 0.0)
      && (forall x :: |power(x)| == |x| / 2 + 1)
      && (forall x, i :: 0 <= i < |power(x)| ==> power(x)[i] >= 0.0)
    }
  }

  function MinReal(a: real, b: real): real { if a <= b then a else b }
  function MaxReal(a: real, b: real): real { if a >= b then a else b }
  function Abs(a: real): real { if a < 0.0 then -a else a }

  /** Sum of a sequence, folded from the right end so that appending is cheap. */
  function Sum(s: seq<real>): real
  {
    if |s| == 0 then 0.0 else Sum(s[..|s| - 1]) + s[|s| - 1]
  }

  function Mean(s: seq<real>): real
    requires |s| > 0
  {
    Sum(s) / (|s| as real)
  }

  /** Population variance (numpy's default ddof = 0). */
  function Variance(s: seq<real>): real
    requires |s| > 0
  {
    var m := Mean(s);
    Mean(seq(|s|, i requires 0 <= i < |s| => (s[i] - m) * (s[i] - m)))
  }

  /** Standard deviation through the library square root. */
  function Std(s: seq<real>, lib: Numerics): real
    requires |s| > 0
  {
    lib.sqrt(Variance(s))
  }

  function Min(s: seq<real>): (r: real)
    requires |s| > 0
    ensures r in s
    ensures forall i :: 0 <= i < |s| ==> r <= s[i]
  {
    if |s| == 1 then s[0] else MinReal(Min(s[..|s| - 1]), s[|s| - 1])
  }

  function Max(s: seq<real>): (r: real)
    requires |s| > 0
    ensures r in s
    ensures forall i :: 0 <= i < |s| ==> s[i] <= r
  {
    if |s| == 1 then s[0] else MaxReal(Max(s[..|s| - 1]), s[|s| - 1])
  }

  /** numpy's argmax: the FIRST index holding the maximum. */
  function ArgMax(s: seq<real>): (k: nat)
    requires |s| > 0
    ensures k < |s|
    ensures forall i :: 0 <= i < |s| ==> s[i] <= s[k]
    ensures forall i :: 0 <= i < k ==> s[i] < s[k]
  {
    if |s| == 1 then 0
    else
      var k := ArgMax(s[..|s| - 1]);
      if s[|s| - 1] > s[k] then |s| - 1 else k
  }

  /** numpy's diff: successive differences, one fewer than the input. */
  function Diff(s: seq<real>): (d: seq<real>)
    ensures |d| == if |s| == 0 then 0 else |s| - 1
  {
    if |s| == 0 then [] else seq(|s| - 1, i requires 0 <= i < |s| - 1 => s[i + 1] - s[i])
  }

  predicate Constant(s: seq<real>)
  {
    forall i :: 0 <= i < |s| ==> s[i] == s[0]
  }

  predicate NonDecreasing(s: seq<real>)
  {
    forall i, j :: 0 <= i < j < |s| ==> s[i] <= s[j]
  }

  predicate NonNegative(s: seq<real>)
  {
    forall i :: 0 <= i < |s| ==> s[i] >= 0.0
  }

  /** The last min(n, |s|) elements of s, in order. */
  function LastN<T>(s: seq<T>, n: nat): (r: seq<T>)
    ensures |r| == if |s| < n then |s| else n
  {
    if |s| <= n then s else s[|s| - n..]
  }

  lemma {:induction false} SumAppend(s: seq<real>, x: real)
    ensures Sum(s + [x]) == Sum(s) + x
  {
    assert (s + [x])[..|s|] == s;
  }

  lemma {:induction false} SumConcat(a: seq<real>, b: seq<real>)
    ensures Sum(a + b) == Sum(a) + Sum(b)
    decreases |b|
  {
    if |b| == 0 {
      assert a + b == a;
    } else {
      var b' := b[..|b| - 1];
      assert a + b == (a + b') + [b[|b| - 1]];
      SumAppend(a + b', b[|b| - 1]);
      SumConcat(a, b');
    }
  }

  /** A constant sequence sums to its length times its value. */
  lemma {:induction false} SumConstant(s: seq<real>, c: real)
    requires forall i :: 0 <= i < |s| ==> s[i] == c
    ensures Sum(s) == (|s| as real) * c
  {
    if |s| > 0 {
      SumConstant(s[..|s| - 1], c);
    }
  }

  /** Termwise bounds carry over to the sum. */
  lemma {:induction false} SumBounds(s: seq<real>, lo: real, hi: real)
    requires forall i :: 0 <= i < |s| ==> lo <= s[i] <= hi
    ensures (|s| as real) * lo <= Sum(s) <= (|s| as real) * hi
  {
    if |s| > 0 {
      SumBounds(s[..|s| - 1], lo, hi);
    }
  }

  lemma {:induction false} SumNonNegative(s: seq<real>)
    requires NonNegative(s)
    ensures Sum(s) >= 0.0
  {
    SumBounds(s, 0.0, if |s| == 0 then 0.0 else Max(s));
  }

  /** Scaling every term scales the sum. */
  lemma {:induction false} SumScale(s: seq<real>, t: seq<real>, c: real)
    requires |t| == |s|
    requires forall i :: 0 <= i < |s| ==> t[i] == s[i] * c
    ensures Sum(t) == Sum(s) * c
  {
    if |s| > 0 {
      SumScale(s[..|s| - 1], t[..|t| - 1], c);
    }
  }

  /** Shifting every term by c shifts the sum by |s| * c. */
  lemma {:induction false} SumShift(s: seq<real>, t: seq<real>, c: real)
    requires |t| == |s|
    requires forall i :: 0 <= i < |s| ==> t[i] == s[i] + c
    ensures Sum(t) == Sum(s) + (|s| as real) * c
  {
    if |s| > 0 {
      SumShift(s[..|s| - 1], t[..|t| - 1], c);
    }
  }

  /** Successive differences telescope: they add up to last minus first. */
  lemma {:induction false} SumDiff(s: seq<real>)
    requires |s| > 0
    ensures Sum(Diff(s)) == s[|s| - 1] - s[0]
  {
    if |s| > 1 {
      var p := s[..|s| - 1];
      assert Diff(s) == Diff(p) + [s[|s| - 1] - s[|s| - 2]];
      SumAppend(Diff(p), s[|s| - 1] - s[|s| - 2]);
      SumDiff(p);
    }
  }

  /** The mean lies between the smallest and the largest element. */
  lemma MeanBetweenMinMax(s: seq<real>)
    requires |s| > 0
    ensures Min(s) <= Mean(s) <= Max(s)
  {
    MeanBounds(s, Min(s), Max(s));
  }

  /** Termwise bounds carry over to the mean. */
  lemma MeanBounds(s: seq<real>, lo: real, hi: real)
    requires |s| > 0
    requires forall i :: 0 <= i < |s| ==> lo <= s[i] <= hi
    ensures lo <= Mean(s) <= hi
  {
    var total := Sum(s);
    SumBounds(s, lo, hi);
    DivBounds(total, |s| as real, lo, hi);
  }

  lemma DivBounds(a: real, n: real, lo: real, hi: real)
    requires n > 0.0 && n * lo <= a <= n * hi
    ensures lo <= a / n <= hi
  {
    assert a / n * n == a;
  }

  /** Variance is never negative; nor is the mean of non-negative values. */
  lemma VarianceNonNegative(s: seq<real>)
    requires |s| > 0
    ensures Variance(s) >= 0.0
    ensures NonNegative(s) ==> Mean(s) >= 0.0
  {
    var m := Mean(s);
    var sq := seq(|s|, i requires 0 <= i < |s| => (s[i] - m) * (s[i] - m));
    forall i | 0 <= i < |s| ensures sq[i] >= 0.0 {
      SquareNonNegative(s[i] - m);
    }
    MeanBounds(sq, 0.0, Max(sq));
    if NonNegative(s) {
      MeanBounds(s, 0.0, Max(s));
    }
  }

  lemma SquareNonNegative(a: real)
    ensures a * a >= 0.0
  {
    if a < 0.0 {
      assert a * a == (-a) * (-a);
    }
  }

  /** The mean of a constant sequence is that constant, and its variance is 0. */
  lemma ConstantMeanVariance(s: seq<real>)
    requires |s| > 0 && Constant(s)
    ensures Mean(s) == s[0]
    ensures Variance(s) == 0.0
  {
    SumConstant(s, s[0]);
    var m := Mean(s);
    var sq := seq(|s|, i requires 0 <= i < |s| => (s[i] - m) * (s[i] - m));
    SumConstant(sq, 0.0);
  }

  // ----- stable sort by a real-valued key -----

  predicate SortedBy<T>(s: seq<T>, key: T -> real)
  {
    forall i, j :: 0 <= i < j < |s| ==> key(s[i]) <= key(s[j])
  }

  /** Inserts x after every element whose key does not exceed key(x). */
  function InsertBy<T>(t: seq<T>, x: T, key: T -> real): (r: seq<T>)
    requires SortedBy(t, key)
    ensures SortedBy(r, key)
    ensures multiset(r) == multiset(t) + multiset{x}
    ensures |r| == |t| + 1
    decreases |t|, 0
  {
    if |t| == 0 then [x]
    else if key(t[|t| - 1]) <= key(x) then t + [x]
    else
      var t' := t[..|t| - 1];
      var last := t[|t| - 1];
      var r' := InsertBy(t', x, key);
      assert t == t' + [last];
      assert forall i :: 0 <= i < |t'| ==> key(t'[i]) <= key(last);
      InsertByBounded(t', x, key, key(last));
      r' + [last]
  }

  /** An upper bound on every key, the inserted one included, still bounds
      every key after insertion. */
  lemma InsertByBounded<T>(t: seq<T>, x: T, key: T -> real, bound: real)
    requires SortedBy(t, key)
    requires forall i :: 0 <= i < |t| ==> key(t[i]) <= bound
    requires key(x) <= bound
    ensures forall i :: 0 <= i < |InsertBy(t, x, key)| ==> key(InsertBy(t, x, key)[i]) <= bound
    decreases |t|, 1
  {
    var r := InsertBy(t, x, key);
    forall i | 0 <= i < |r| ensures key(r[i]) <= bound {
      assert r[i] in multiset(r);
      assert r[i] in multiset(t) || r[i] == x;
      if r[i] != x {
        var j :| 0 <= j < |t| && t[j] == r[i];
      }
    }
  }

  /** Stable insertion sort: ascending by key, a permutation of the input. */
  function SortBy<T>(s: seq<T>, key: T -> real): (r: seq<T>)
    ensures SortedBy(r, key)
    ensures multiset(r) == multiset(s)
    ensures |r| == |s|
  {
    if |s| == 0 then []
    else
      assert s == s[..|s| - 1] + [s[|s| - 1]];
      InsertBy(SortBy(s[..|s| - 1], key), s[|s| - 1], key)
  }

  /** The sorted keys themselves, as a sequence of reals. */
  function Keys<T>(s: seq<T>, key: T -> real): (r: seq<real>)
    ensures |r| == |s|
    ensures forall i :: 0 <= i < |s| ==> r[i] == key(s[i])
  {
    seq(|s|, i requires 0 <= i < |s| => key(s[i]))
  }

  lemma KeysConcat<T>(a: seq<T>, b: seq<T>, key: T -> real)
    ensures Keys(a + b, key) == Keys(a, key) + Keys(b, key)
  {
  }

  /** Permuting a sequence permutes its keys. */
  lemma {:induction false} KeysPermutation<T>(a: seq<T>, b: seq<T>, key: T -> real)
    requires multiset(a) == multiset(b)
    ensures multiset(Keys(a, key)) == multiset(Keys(b, key))
    decreases |a|
  {
    if |a| == 0 {
      assert b == [];
    } else {
      var x := a[|a| - 1];
      assert x in multiset(b);
      var j :| 0 <= j < |b| && b[j] == x;
      var a' := a[..|a| - 1];
      var b' := b[..j] + b[j + 1..];
      assert a == a' + [x];
      assert b == b[..j] + [x] + b[j + 1..];
      assert multiset(a) == multiset(a') + multiset{x};
      assert multiset(b) == multiset(b[..j]) + multiset{x} + multiset(b[j + 1..]);
      assert multiset(b') == multiset(b[..j]) + multiset(b[j + 1..]);
      assert multiset(a') == multiset(a) - multiset{x};
      assert multiset(b') == multiset(b) - multiset{x};
      KeysPermutation(a', b', key);
      KeysConcat(a', [x], key);
      KeysConcat(b[..j] + [x], b[j + 1..], key);
      KeysConcat(b[..j], [x], key);
      KeysConcat(b[..j], b[j + 1..], key);
    }
  }

  /** Sorted reals: the element at position k lies between Min and Max. */
  lemma SortedWithinBounds(s: seq<real>, t: seq<real>, k: nat)
    requires |s| > 0 && multiset(t) == multiset(s) && k < |t|
    ensures Min(s) <= t[k] <= Max(s)
  {
    assert t[k] in multiset(t);
    assert t[k] in s;
  }

  // ----- text and timestamp columns -----

  /** Python's str() of a non-negative integer: its decimal digits, most
      significant first. */
  function NatToString(n: nat): (s: string)
    ensures |s| > 0
    ensures forall i :: 0 <= i < |s| ==> '0' <= s[i] <= '9'
    ensures n < 10 <==> |s| == 1
    ensures s[|s| - 1] == DigitChar(n % 10)
  {
    if n < 10 then [DigitChar(n)] else NatToString(n / 10) + [DigitChar(n % 10)]
  }

  function DigitChar(d: nat): (c: char)
    requires d < 10
    ensures c as int == '0' as int + d
  {
    ('0' as int + d) as char
  }

  /** Different numbers print differently. */
  lemma {:induction false} NatToStringInjective(m: nat, n: nat)
    requires NatToString(m) == NatToString(n)
    ensures m == n
  {
    if m >= 10 && n >= 10 {
      var sm, sn := NatToString(m), NatToString(n);
      assert sm[..|sm| - 1] == NatToString(m / 10);
      assert sn[..|sn| - 1] == NatToString(n / 10);
      NatToStringInjective(m / 10, n / 10);
      assert DigitChar(m % 10) == DigitChar(n % 10);
    } else if m < 10 && n < 10 {
      assert DigitChar(m) == DigitChar(n);
    }
  }

  /** A key joined as a + "_" + b splits back into its two parts when the
      first part holds no '_': such keys are equal exactly when both parts
      are. */
  lemma {:induction false} UnderscoreJoinInjective(a: string, b: string, c: string, d: string)
    requires '_' !in a && '_' !in c
    ensures a + "_" + b == c + "_" + d <==> a == c && b == d
  {
    var x, y := a + "_" + b, c + "_" + d;
    assert x[|a|] == '_' && y[|c|] == '_';
    if |a| < |c| {
      assert c[|a|] in c;
      assert y[|a|] == c[|a|];
    } else if |c| < |a| {
      assert a[|c|] in a;
      assert x[|c|] == a[|c|];
    } else if x == y {
      assert a == x[..|a|];
      assert c == y[..|c|];
      assert b == x[|a| + 1..];
      assert d == y[|c| + 1..];
    }
  }

  /** The IPD column of a timestamp column: 0 for the first row, then the
      difference to the previous row (pandas diff().fillna(0)). */
  function IpdColumn(ts: seq<real>): (ipd: seq<real>)
    ensures |ipd| == |ts|
  {
    if |ts| == 0 then [] else [0.0] + Diff(ts)
  }

  /** The first IPD is 0, every later one is the gap to the previous row,
      and on non-decreasing timestamps no IPD is negative. */
  lemma IpdColumnShape(ts: seq<real>)
    ensures |ts| > 0 ==> IpdColumn(ts)[0] == 0.0
    ensures forall i :: 0 < i < |ts| ==> IpdColumn(ts)[i] == ts[i] - ts[i - 1]
    ensures NonDecreasing(ts) ==> NonNegative(IpdColumn(ts))
  {
    if |ts| > 0 {
      var ipd := IpdColumn(ts);
      forall i | 0 < i < |ts| ensures ipd[i] == ts[i] - ts[i - 1] {
        assert ipd[i] == Diff(ts)[i - 1];
      }
      if NonDecreasing(ts) {
        forall i | 0 <= i < |ipd| ensures ipd[i] >= 0.0 {
          if i > 0 {
            assert ipd[i] == ts[i] - ts[i - 1];
            assert ts[i - 1] <= ts[i];
          }
        }
      }
    }
  }

  /** The IPDs of a column add up to its last timestamp minus its first. */
  lemma IpdColumnTelescopes(ts: seq<real>)
    requires |ts| > 0
    ensures Sum(IpdColumn(ts)) == ts[|ts| - 1] - ts[0]
  {
    SumDiff(ts);
    SumConcat([0.0], Diff(ts));
    assert Sum([0.0]) == Sum([]) + 0.0;
  }
}
