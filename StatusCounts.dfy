/**
 * count_statuses: one `"<N>x <value>"` string per distinct value of a list,
 * in order of first occurrence. PHP's array_count_values builds the ordered
 * count dictionary; the loop formats its entries.
 */
module StatusCounts {

  /** An ordered dictionary from value to count, as a list of pairs. */
  type Counted = seq<(string, nat)>

  /** The keys of a dictionary, in order. */
  function KeysOf(p: Counted): (ks: seq<string>)
    ensures |ks| == |p| && forall i :: 0 <= i < |p| ==> ks[i] == p[i].0
  {
    seq(|p|, i requires 0 <= i < |p| => p[i].0)
  }

  /** The count stored under `k` (by its last entry), or 0 when `k` is not a key. */
  function CountOf(p: Counted, k: string): nat
  {
    if |p| == 0 then 0
    else if p[|p| - 1].0 == k then p[|p| - 1].1
    else CountOf(p[..|p| - 1], k)
  }

  /** The sum of all counts. */
  function Total(p: Counted): nat
  {
    if |p| == 0 then 0 else Total(p[..|p| - 1]) + p[|p| - 1].1
  }

  /** No key occurs twice. */
  predicate DistinctKeys(p: Counted)
  {
    forall i, j :: 0 <= i < j < |p| ==> p[i].0 != p[j].0
  }

  /** The position of the first entry at or after `i` whose key is `v`, or `|p|`. */
  function KeyPos(p: Counted, v: string, i: nat): (j: nat)
    requires i <= |p|
    ensures i <= j <= |p| && (j < |p| ==> p[j].0 == v)
    ensures forall m :: i <= m < j ==> p[m].0 != v
    decreases |p| - i
  {
    if i == |p| || p[i].0 == v then i else KeyPos(p, v, i + 1)
  }

  /** `$counts[$v]++`, adding the key `v` with count 1 at the end when absent. */
  function Increment(p: Counted, v: string): Counted
  {
    var j := KeyPos(p, v, 0);
    if j == |p| then p + [(v, 1)] else p[j := (v, p[j].1 + 1)]
  }

  /**
   * `array_count_values($values)`: distinct keys, one per distinct value,
   * so never more entries than values.
   */
  function CountValues(values: seq<string>): (r: Counted)
    ensures DistinctKeys(r) && |r| <= |values|
  {
    if |values| == 0 then []
    else
      var init := CountValues(values[..|values| - 1]);
      IncrementShape(init, values[|values| - 1]);
      Increment(init, values[|values| - 1])
  }

  /** With distinct keys, the count under the key of entry `i` is the count of entry `i`. */
  lemma {:induction false} CountAt(p: Counted, i: nat)
    requires i < |p| && DistinctKeys(p)
    ensures CountOf(p, p[i].0) == p[i].1
  {
    if i < |p| - 1 {
      CountAt(p[..|p| - 1], i);
    }
  }

  /** A key that is absent counts 0. */
  lemma {:induction false} CountAbsent(p: Counted, k: string)
    requires k !in KeysOf(p)
    ensures CountOf(p, k) == 0
  {
    if |p| > 0 {
      assert p[|p| - 1].0 == KeysOf(p)[|p| - 1];
      var init := p[..|p| - 1];
      assert forall i :: 0 <= i < |init| ==> KeysOf(init)[i] == KeysOf(p)[i];
      CountAbsent(init, k);
    }
  }

  /** Replacing the count of entry `j` changes the total by the difference. */
  lemma {:induction false} TotalUpdate(p: Counted, j: nat, x: (string, nat))
    requires j < |p|
    ensures Total(p[j := x]) + p[j].1 == Total(p) + x.1
  {
    var q := p[j := x];
    if j < |p| - 1 {
      assert q[..|q| - 1] == p[..|p| - 1][j := x];
      TotalUpdate(p[..|p| - 1], j, x);
    } else {
      assert q[..|q| - 1] == p[..|p| - 1];
    }
  }

  lemma TotalSnoc(p: Counted, x: (string, nat))
    ensures Total(p + [x]) == Total(p) + x.1
  {
    assert (p + [x])[..|p|] == p;
  }

  /** An absent key is appended with count 1. */
  lemma IncrementNew(p: Counted, v: string)
    requires DistinctKeys(p) && v !in KeysOf(p)
    ensures KeysOf(Increment(p, v)) == KeysOf(p) + [v]
    ensures forall k :: CountOf(Increment(p, v), k) == CountOf(p, k) + (if k == v then 1 else 0)
    ensures Total(Increment(p, v)) == Total(p) + 1
    ensures DistinctKeys(Increment(p, v))
  {
    forall i | 0 <= i < |p|
      ensures p[i].0 != v
    {
      assert KeysOf(p)[i] == p[i].0;
    }
    assert KeyPos(p, v, 0) == |p|;
    var q := p + [(v, 1)];
    assert Increment(p, v) == q;
    assert q[..|p|] == p;
    assert KeysOf(q) == KeysOf(p) + [v];
    CountAbsent(p, v);
    TotalSnoc(p, (v, 1));
  }

  /** A present key keeps its place and its count grows by one. */
  lemma IncrementOld(p: Counted, v: string)
    requires DistinctKeys(p) && v in KeysOf(p)
    ensures KeysOf(Increment(p, v)) == KeysOf(p)
    ensures forall k :: CountOf(Increment(p, v), k) == CountOf(p, k) + (if k == v then 1 else 0)
    ensures Total(Increment(p, v)) == Total(p) + 1
    ensures DistinctKeys(Increment(p, v))
  {
    var j := KeyPos(p, v, 0);
    var q := p[j := (v, p[j].1 + 1)];
    assert Increment(p, v) == q;
    assert KeysOf(q) == KeysOf(p);
    TotalUpdate(p, j, (v, p[j].1 + 1));
    forall k
      ensures CountOf(q, k) == CountOf(p, k) + (if k == v then 1 else 0)
    {
      if k == v {
        CountAt(q, j);
        CountAt(p, j);
      } else if k in KeysOf(p) {
        var m :| 0 <= m < |p| && KeysOf(p)[m] == k;
        CountAt(q, m);
        CountAt(p, m);
      } else {
        CountAbsent(q, k);
        CountAbsent(p, k);
      }
    }
  }

  /**
   * Increment keeps the keys (adding `v` at the end when new), bumps the
   * count of `v` alone, adds one to the total and keeps keys distinct.
   */
  lemma IncrementShape(p: Counted, v: string)
    requires DistinctKeys(p)
    ensures KeysOf(Increment(p, v)) == if v in KeysOf(p) then KeysOf(p) else KeysOf(p) + [v]
    ensures forall k :: CountOf(Increment(p, v), k) == CountOf(p, k) + (if k == v then 1 else 0)
    ensures Total(Increment(p, v)) == Total(p) + 1
    ensures DistinctKeys(Increment(p, v))
  {
    if v in KeysOf(p) {
      IncrementOld(p, v);
    } else {
      IncrementNew(p, v);
    }
  }

  /** The index of the first occurrence of `k` in `s`. */
  function FirstIndex(s: seq<string>, k: string): (i: nat)
    requires k in s
    ensures i < |s| && s[i] == k && k !in s[..i]
  {
    var init := s[..|s| - 1];
    if k in init then
      var i := FirstIndex(init, k);
      assert init[..i] == s[..i];
      i
    else
      assert s == init + [s[|s| - 1]];
      |s| - 1
  }

  lemma FirstIndexSnoc(s: seq<string>, v: string, k: string)
    requires k in s
    ensures FirstIndex(s + [v], k) == FirstIndex(s, k)
  {
    assert (s + [v])[..|s|] == s;
  }

  /** The keys are listed in the order in which they first occur in `s`. */
  predicate FirstOccurrenceOrder(keys: seq<string>, s: seq<string>)
  {
    forall i, j :: 0 <= i < j < |keys| && keys[i] in s && keys[j] in s ==>
      FirstIndex(s, keys[i]) < FirstIndex(s, keys[j])
  }

  /**
   * What array_count_values returns: every distinct value of `values` once,
   * counted exactly; the counts sum to the number of values.
   */
  lemma {:induction false} CountValuesShape(values: seq<string>)
    ensures DistinctKeys(CountValues(values))
    ensures forall k :: k in KeysOf(CountValues(values)) <==> k in values
    ensures forall k :: CountOf(CountValues(values), k) == multiset(values)[k]
    ensures Total(CountValues(values)) == |values|
  {
    if |values| > 0 {
      var init := values[..|values| - 1];
      var v := values[|values| - 1];
      assert values == init + [v];
      assert multiset(values) == multiset(init) + multiset{v};
      CountValuesShape(init);
      IncrementShape(CountValues(init), v);
      assert CountValues(values) == Increment(CountValues(init), v);
      assert forall k :: k in values <==> k in init || k == v;
    }
  }

  /** ... and lists them in the order of their first occurrence. */
  lemma {:induction false} CountValuesOrder(values: seq<string>)
    ensures FirstOccurrenceOrder(KeysOf(CountValues(values)), values)
  {
    if |values| > 0 {
      var init := values[..|values| - 1];
      var v := values[|values| - 1];
      assert values == init + [v];
      CountValuesOrder(init);
      CountValuesShape(init);
      IncrementShape(CountValues(init), v);
      var keys := KeysOf(CountValues(values));
      var keys0 := KeysOf(CountValues(init));
      assert keys == if v in init then keys0 else keys0 + [v];
      forall i, j | 0 <= i < j < |keys| && keys[i] in values && keys[j] in values
        ensures FirstIndex(values, keys[i]) < FirstIndex(values, keys[j])
      {
        assert keys[i] == keys0[i] && keys[i] in init;
        FirstIndexSnoc(init, v, keys[i]);
        if j < |keys0| {
          assert keys[j] == keys0[j] && keys[j] in init;
          FirstIndexSnoc(init, v, keys[j]);
        } else {
          assert keys[j] == v && v !in init;
          assert values[|init|] == v;
          assert values[..|init|] == init;
          assert FirstIndex(values, v) == |init|;
        }
      }
    }
  }

  /** The decimal digit `d`. */
  function DigitChar(d: nat): (c: char)
    requires d < 10
    ensures '0' <= c <= '9' && c as int - '0' as int == d
  {
    "0123456789"[d]
  }

  predicate IsDigit(c: char)
  {
    '0' <= c <= '9'
  }

  /** The decimal representation of `n`, as PHP writes an integer into a string. */
  function NatToString(n: nat): (s: string)
    ensures |s| > 0 && forall i :: 0 <= i < |s| ==> IsDigit(s[i])
  {
    if n < 10 then [DigitChar(n)] else NatToString(n / 10) + [DigitChar(n % 10)]
  }

  /** The value of a string of decimal digits. */
  function ParseDigits(s: string): nat
    requires forall i :: 0 <= i < |s| ==> IsDigit(s[i])
  {
    if |s| == 0 then 0
    else
      var last := s[|s| - 1];
      assert IsDigit(last);
      ParseDigits(s[..|s| - 1]) * 10 + (last as int - '0' as int)
  }

  lemma {:induction false} ParseNatToString(n: nat)
    ensures ParseDigits(NatToString(n)) == n
  {
    if n >= 10 {
      ParseNatToString(n / 10);
      var s := NatToString(n);
      assert s[..|s| - 1] == NatToString(n / 10);
    }
  }

  /** One entry of count_statuses. */
  function Label(count: nat, key: string): string
  {
    NatToString(count) + "x " + key
  }

  /** The end of the run of digits of `s` that starts at `i`. */
  function DigitRun(s: string, i: nat): (n: nat)
    requires i <= |s|
    ensures i <= n <= |s| && forall m :: i <= m < n ==> IsDigit(s[m])
    ensures n < |s| ==> !IsDigit(s[n])
    decreases |s| - i
  {
    if i == |s| || !IsDigit(s[i]) then i else DigitRun(s, i + 1)
  }

  /** The length of the run of digits that starts `s`. */
  function DigitPrefix(s: string): (n: nat)
    ensures n <= |s| && forall i :: 0 <= i < n ==> IsDigit(s[i])
    ensures n < |s| ==> !IsDigit(s[n])
  {
    DigitRun(s, 0)
  }

  /** Read an entry back: the count before the `x`, the value after `"x "`. */
  function ParseLabel(line: string): (nat, string)
  {
    var n := DigitPrefix(line);
    (ParseDigits(line[..n]), if n + 2 <= |line| then line[n + 2..] else "")
  }

  lemma {:induction false} DigitRunOfDigits(a: string, b: string, i: nat)
    requires i <= |a| && forall m :: 0 <= m < |a| ==> IsDigit(a[m])
    requires |b| > 0 && !IsDigit(b[0])
    ensures DigitRun(a + b, i) == |a|
    decreases |a| - i
  {
    if i < |a| {
      assert (a + b)[i] == a[i];
      DigitRunOfDigits(a, b, i + 1);
    } else {
      assert (a + b)[i] == b[0];
    }
  }

  /** An entry determines its count and its value. */
  lemma LabelRoundTrip(count: nat, key: string)
    ensures ParseLabel(Label(count, key)) == (count, key)
  {
    var digits := NatToString(count);
    var line := Label(count, key);
    assert line == digits + ("x " + key);
    DigitRunOfDigits(digits, "x " + key, 0);
    assert line[..|digits|] == digits;
    assert line[|digits| + 2..] == key;
    ParseNatToString(count);
  }

  /** The sum of the counts written into a list of entries. */
  function SumCounts(lines: seq<string>): nat
  {
    if |lines| == 0 then 0 else SumCounts(lines[..|lines| - 1]) + ParseLabel(lines[|lines| - 1]).0
  }

  lemma PrefixSnoc(p: Counted, i: nat)
    requires i < |p|
    ensures p[..i + 1] == p[..i] + [p[i]]
  {
  }

  /**
   * The PHP count_statuses: one entry per distinct value in order of first
   * occurrence, each holding the number of times the value occurs, so that
   * the counts written add up to the number of values.
   */
  method CountStatuses(statuses: seq<string>) returns (result: seq<string>)
    ensures |result| == |KeysOf(CountValues(statuses))|
    ensures forall i :: 0 <= i < |result| ==>
      var key := KeysOf(CountValues(statuses))[i];
      result[i] == Label(multiset(statuses)[key], key)
    ensures forall v :: v in statuses <==> v in KeysOf(CountValues(statuses))
    ensures DistinctKeys(CountValues(statuses))
    ensures FirstOccurrenceOrder(KeysOf(CountValues(statuses)), statuses)
    ensures SumCounts(result) == |statuses|
  {
    var counts := CountValues(statuses);
    result := [];
    var i := 0;
    while i < |counts|
      invariant 0 <= i <= |counts|
      invariant |result| == i
      invariant forall j :: 0 <= j < i ==> result[j] == Label(counts[j].1, counts[j].0)
      invariant SumCounts(result) == Total(counts[..i])
    {
      var line := NatToString(counts[i].1) + "x " + counts[i].0;
      SumCountsStep(result, counts, i, line);
      result := result + [line];
      i := i + 1;
    }
    assert counts[..i] == counts;
    CountStatusesMeaning(statuses, counts, result);
  }

  lemma SumCountsStep(result: seq<string>, counts: Counted, i: nat, line: string)
    requires i < |counts| && SumCounts(result) == Total(counts[..i])
    requires line == Label(counts[i].1, counts[i].0)
    ensures SumCounts(result + [line]) == Total(counts[..i + 1])
  {
    LabelRoundTrip(counts[i].1, counts[i].0);
    PrefixSnoc(counts, i);
    TotalSnoc(counts[..i], counts[i]);
    assert (result + [line])[..|result|] == result;
  }

  lemma CountStatusesMeaning(statuses: seq<string>, counts: Counted, result: seq<string>)
    requires counts == CountValues(statuses)
    requires |result| == |counts|
    requires forall j :: 0 <= j < |counts| ==> result[j] == Label(counts[j].1, counts[j].0)
    requires SumCounts(result) == Total(counts)
    ensures |result| == |KeysOf(CountValues(statuses))|
    ensures forall i :: 0 <= i < |result| ==>
      var key := KeysOf(CountValues(statuses))[i];
      result[i] == Label(multiset(statuses)[key], key)
    ensures forall v :: v in statuses <==> v in KeysOf(CountValues(statuses))
    ensures DistinctKeys(CountValues(statuses))
    ensures FirstOccurrenceOrder(KeysOf(CountValues(statuses)), statuses)
    ensures SumCounts(result) == |statuses|
  {
    CountValuesShape(statuses);
    CountValuesOrder(statuses);
    forall j | 0 <= j < |result|
      ensures result[j] == Label(multiset(statuses)[KeysOf(counts)[j]], KeysOf(counts)[j])
    {
      CountAt(counts, j);
    }
  }
}
