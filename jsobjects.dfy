/** The part of ordinary-object semantics of ECMA-262 (2023) that the label
    parser observes: which own properties the assignments `obj[text] = v`
    create on a fresh `{}`, and in which order Object.values then visits
    them ([[OwnPropertyKeys]], section 10.1.11.1). Objects are modelled by the
    sequence of their own keys in order of creation. */
module JsObjects {

  /** The one key whose assignment on a plain object calls the inherited
      `__proto__` accessor (Annex B.2.2.1.2) instead of creating an own
      property. */
  const ProtoKey: string := "__proto__"

  predicate IsDigit(c: char) {
    '0' <= c <= '9'
  }

  function DigitValue(c: char): nat {
    if IsDigit(c) then c as int - '0' as int else 0
  }

  /** The value of a string of decimal digits. */
  function DecimalValue(k: string): nat {
    if k == [] then 0 else 10 * DecimalValue(k[..|k| - 1]) + DigitValue(k[|k| - 1])
  }

  /** Section 6.1.7: a key is an array index when it is the canonical decimal
      form (no leading zero) of an integer in the range 0 to 2^32 - 2. */
  predicate IsArrayIndex(k: string) {
    && k != []
    && (forall i :: 0 <= i < |k| ==> IsDigit(k[i]))
    && (k[0] != '0' || |k| == 1)
    && DecimalValue(k) < 0xFFFF_FFFF
  }

  predicate Distinct(xs: seq<string>) {
    forall p, q :: 0 <= p < q < |xs| ==> xs[p] != xs[q]
  }

  /** The position of the first occurrence of `x` in `xs`. */
  function FirstIndex(xs: seq<string>, x: string): (i: nat)
    requires x in xs
    ensures i < |xs| && xs[i] == x && x !in xs[..i]
  {
    if xs[0] == x then 0
    else
      var i := 1 + FirstIndex(xs[1..], x);
      assert xs[..i] == [xs[0]] + xs[1..][..i - 1];
      i
  }

  /** The first occurrence is the only position holding `x` with no `x` before it. */
  lemma FirstIndexUnique(xs: seq<string>, x: string, i: nat)
    requires i < |xs| && xs[i] == x && x !in xs[..i]
    ensures FirstIndex(xs, x) == i
  {
  }

  /** Elements of `xs` appear in `texts` and in the order of their first
      occurrence there. */
  predicate OrderedBy(xs: seq<string>, texts: seq<string>) {
    && (forall k :: 0 <= k < |xs| ==> xs[k] in texts)
    && (forall p, q :: 0 <= p < q < |xs| ==> FirstIndex(texts, xs[p]) < FirstIndex(texts, xs[q]))
  }

  /** The own keys, in creation order, of a fresh `{}` after `obj[t] = v` has
      been executed for each `t` of `texts` in turn: a key is created by its
      first assignment, a later one only overwrites the value, and
      `__proto__` never becomes an own key. */
  function CreationOrder(texts: seq<string>): (r: seq<string>)
    ensures forall x :: x in r <==> x in texts && x != ProtoKey
    ensures Distinct(r)
    ensures |r| <= |texts|
  {
    if texts == [] then []
    else
      var prior := CreationOrder(texts[..|texts| - 1]);
      var t := texts[|texts| - 1];
      assert texts == texts[..|texts| - 1] + [t];
      if t == ProtoKey || t in prior then prior else prior + [t]
  }

  /** One more assignment `obj[t] = ...`: it creates `t` unless `t` is
      already a key or is `__proto__`. */
  lemma CreationOrderAppend(texts: seq<string>, t: string)
    ensures CreationOrder(texts + [t]) ==
      if t == ProtoKey || t in CreationOrder(texts) then CreationOrder(texts) else CreationOrder(texts) + [t]
  {
    assert (texts + [t])[..|texts|] == texts;
  }

  /** Keys are created in the order in which their texts first occur. */
  lemma {:induction false} CreationOrderFollowsFirstOccurrence(texts: seq<string>)
    ensures OrderedBy(CreationOrder(texts), texts)
  {
    if texts != [] {
      var init := texts[..|texts| - 1];
      var t := texts[|texts| - 1];
      var prior := CreationOrder(init);
      var r := CreationOrder(texts);
      CreationOrderFollowsFirstOccurrence(init);
      assert init == texts[..|init|];
      forall x | x in init ensures FirstIndex(texts, x) == FirstIndex(init, x) {
        var f := FirstIndex(init, x);
        assert texts[..f] == init[..f];
        FirstIndexUnique(texts, x, f);
      }
      if r != prior {
        assert r == prior + [t] && t !in init;
        assert texts[..|init|] == init;
        FirstIndexUnique(texts, t, |init|);
        forall k | 0 <= k < |prior| ensures FirstIndex(texts, r[k]) < FirstIndex(texts, t) {
          assert r[k] == prior[k] && prior[k] in init;
        }
      }
    }
  }

  /** The array-index keys of `xs`, in their order there. */
  function IndexKeys(xs: seq<string>): (r: seq<string>)
    ensures forall x :: x in r <==> x in xs && IsArrayIndex(x)
    ensures Distinct(xs) ==> Distinct(r)
  {
    if xs == [] then []
    else
      var rest := IndexKeys(xs[1..]);
      if IsArrayIndex(xs[0]) then [xs[0]] + rest else rest
  }

  /** The keys of `xs` that are not array indices, in their order there. */
  function NamedKeys(xs: seq<string>): (r: seq<string>)
    ensures forall x :: x in r <==> x in xs && !IsArrayIndex(x)
    ensures Distinct(xs) ==> Distinct(r)
  {
    if xs == [] then []
    else
      var rest := NamedKeys(xs[1..]);
      if !IsArrayIndex(xs[0]) then [xs[0]] + rest else rest
  }

  lemma OrderedByTail(xs: seq<string>, texts: seq<string>)
    requires xs != [] && OrderedBy(xs, texts)
    ensures OrderedBy(xs[1..], texts)
  {
    forall p, q | 0 <= p < q < |xs| - 1
      ensures FirstIndex(texts, xs[1..][p]) < FirstIndex(texts, xs[1..][q])
    {
      assert xs[1..][p] == xs[p + 1] && xs[1..][q] == xs[q + 1];
    }
  }

  lemma OrderedByCons(x: string, rest: seq<string>, texts: seq<string>)
    requires x in texts && OrderedBy(rest, texts)
    requires forall k :: 0 <= k < |rest| ==> FirstIndex(texts, x) < FirstIndex(texts, rest[k])
    ensures OrderedBy([x] + rest, texts)
  {
    var r := [x] + rest;
    forall p, q | 0 <= p < q < |r| ensures FirstIndex(texts, r[p]) < FirstIndex(texts, r[q]) {
      assert r[q] == rest[q - 1];
      if p > 0 {
        assert r[p] == rest[p - 1];
      }
    }
  }

  /** Keeping only the keys that are not array indices keeps their relative order. */
  lemma {:induction false} NamedKeysKeepOrder(xs: seq<string>, texts: seq<string>)
    requires OrderedBy(xs, texts)
    ensures OrderedBy(NamedKeys(xs), texts)
  {
    if xs != [] {
      OrderedByTail(xs, texts);
      NamedKeysKeepOrder(xs[1..], texts);
      var rest := NamedKeys(xs[1..]);
      if !IsArrayIndex(xs[0]) {
        forall k | 0 <= k < |rest| ensures FirstIndex(texts, xs[0]) < FirstIndex(texts, rest[k]) {
          assert rest[k] in xs[1..];
          var j :| 0 <= j < |xs| - 1 && xs[1..][j] == rest[k];
          assert xs[j + 1] == rest[k];
        }
        OrderedByCons(xs[0], rest, texts);
      }
    }
  }

  /** Numerically ascending. */
  predicate Ascending(xs: seq<string>) {
    Nondecreasing(Values(xs))
  }

  /** The numeric values of the keys `xs`. */
  function Values(xs: seq<string>): (v: seq<nat>)
    ensures |v| == |xs|
  {
    if xs == [] then [] else [DecimalValue(xs[0])] + Values(xs[1..])
  }

  /** Position `i` of Values(xs) is the value of xs[i]. */
  lemma {:induction false} ValuesAt(xs: seq<string>, i: nat)
    requires i < |xs|
    ensures Values(xs)[i] == DecimalValue(xs[i])
  {
    if i > 0 {
      ValuesAt(xs[1..], i - 1);
    }
  }

  predicate Nondecreasing(v: seq<nat>) {
    forall p, q :: 0 <= p < q < |v| ==> v[p] <= v[q]
  }

  lemma NondecreasingCons(x: nat, v: seq<nat>)
    requires Nondecreasing(v)
    requires forall q :: 0 <= q < |v| ==> x <= v[q]
    ensures Nondecreasing([x] + v)
  {
    var w := [x] + v;
    forall p, q | 0 <= p < q < |w| ensures w[p] <= w[q] {
      assert w[q] == v[q - 1];
      if p > 0 { assert w[p] == v[p - 1]; }
    }
  }

  lemma NondecreasingTail(v: seq<nat>)
    requires v != [] && Nondecreasing(v)
    ensures Nondecreasing(v[1..])
    ensures forall q :: 0 <= q < |v| - 1 ==> v[0] <= v[1..][q]
  {
    forall p, q | 0 <= p < q < |v| - 1 ensures v[1..][p] <= v[1..][q] {
      assert v[1..][p] == v[p + 1] && v[1..][q] == v[q + 1];
    }
    forall q | 0 <= q < |v| - 1 ensures v[0] <= v[1..][q] {
      assert v[1..][q] == v[q + 1];
    }
  }

  /** `k` placed before the first key of `s` whose value is not below its own. */
  function InsertByValue(k: string, s: seq<string>): (r: seq<string>)
    ensures multiset(r) == multiset(s) + multiset{k}
    ensures forall x :: x in r <==> x in s || x == k
  {
    if s == [] || DecimalValue(k) <= DecimalValue(s[0]) then [k] + s
    else
      assert s == [s[0]] + s[1..];
      [s[0]] + InsertByValue(k, s[1..])
  }

  lemma AscendingCons(x: string, rest: seq<string>)
    requires Ascending(rest)
    requires forall q :: 0 <= q < |rest| ==> DecimalValue(x) <= DecimalValue(rest[q])
    ensures Ascending([x] + rest)
  {
    forall q | 0 <= q < |rest| ensures DecimalValue(x) <= Values(rest)[q] {
      ValuesAt(rest, q);
    }
    assert ([x] + rest)[1..] == rest;
    NondecreasingCons(DecimalValue(x), Values(rest));
  }

  lemma AscendingTail(s: seq<string>)
    requires s != [] && Ascending(s)
    ensures Ascending(s[1..])
    ensures forall x :: x in s[1..] ==> DecimalValue(s[0]) <= DecimalValue(x)
  {
    NondecreasingTail(Values(s));
    forall x | x in s[1..] ensures DecimalValue(s[0]) <= DecimalValue(x) {
      var j :| 0 <= j < |s| - 1 && s[1..][j] == x;
      ValuesAt(s[1..], j);
    }
  }

  /** Inserting into an ascending sequence keeps it ascending. */
  lemma {:induction false} InsertKeepsAscending(k: string, s: seq<string>)
    requires Ascending(s)
    ensures Ascending(InsertByValue(k, s))
  {
    if s != [] && DecimalValue(k) > DecimalValue(s[0]) {
      AscendingTail(s);
      InsertKeepsAscending(k, s[1..]);
      var rest := InsertByValue(k, s[1..]);
      forall q | 0 <= q < |rest| ensures DecimalValue(s[0]) <= DecimalValue(rest[q]) {
        assert rest[q] in rest;
      }
      AscendingCons(s[0], rest);
    } else if s != [] {
      AscendingTail(s);
      forall q | 0 <= q < |s| ensures DecimalValue(k) <= DecimalValue(s[q]) {
        if q > 0 { assert s[q] == s[1..][q - 1]; }
      }
      AscendingCons(k, s);
    } else {
      AscendingCons(k, s);
    }
  }

  /** The keys of `xs` in ascending numeric order (insertion sort). */
  function SortByValue(xs: seq<string>): (r: seq<string>)
    ensures multiset(r) == multiset(xs)
    ensures forall x :: x in r <==> x in xs
  {
    if xs == [] then []
    else
      assert xs == [xs[0]] + xs[1..];
      InsertByValue(xs[0], SortByValue(xs[1..]))
  }

  /** The sorted keys are in ascending numeric order. */
  lemma {:induction false} SortIsAscending(xs: seq<string>)
    ensures Ascending(SortByValue(xs))
  {
    if xs != [] {
      SortIsAscending(xs[1..]);
      InsertKeepsAscending(xs[0], SortByValue(xs[1..]));
    }
  }

  /** Sorting keeps distinct keys distinct. */
  lemma {:induction false} SortKeepsDistinct(xs: seq<string>)
    requires Distinct(xs)
    ensures Distinct(SortByValue(xs))
  {
    if xs != [] {
      assert Distinct(xs[1..]) by {
        forall p, q | 0 <= p < q < |xs| - 1 ensures xs[1..][p] != xs[1..][q] {
          assert xs[1..][p] == xs[p + 1] && xs[1..][q] == xs[q + 1];
        }
      }
      SortKeepsDistinct(xs[1..]);
      var s := SortByValue(xs[1..]);
      assert xs[0] !in xs[1..];
      InsertKeepsDistinct(xs[0], s);
    }
  }

  lemma {:induction false} InsertKeepsDistinct(k: string, s: seq<string>)
    requires Distinct(s) && k !in s
    ensures Distinct(InsertByValue(k, s))
  {
    if s != [] && DecimalValue(k) > DecimalValue(s[0]) {
      assert Distinct(s[1..]) by {
        forall p, q | 0 <= p < q < |s| - 1 ensures s[1..][p] != s[1..][q] {
          assert s[1..][p] == s[p + 1] && s[1..][q] == s[q + 1];
        }
      }
      InsertKeepsDistinct(k, s[1..]);
      var rest := InsertByValue(k, s[1..]);
      assert s[0] !in rest;
      var r := InsertByValue(k, s);
      assert r == [s[0]] + rest;
      forall p, q | 0 <= p < q < |r| ensures r[p] != r[q] {
        assert r[q] == rest[q - 1];
        if p > 0 { assert r[p] == rest[p - 1]; }
      }
    }
  }

  /** [[OwnPropertyKeys]] of an ordinary object whose own string keys were
      created in the order `created`: the array indices in ascending numeric
      order, then the other keys in creation order. */
  function OwnPropertyKeys(created: seq<string>): seq<string> {
    SortByValue(IndexKeys(created)) + NamedKeys(created)
  }

  /** Enumeration visits exactly the created keys, each once, array indices
      first in ascending numeric order. */
  lemma OwnPropertyKeysOfDistinct(created: seq<string>)
    requires Distinct(created)
    ensures forall x :: x in OwnPropertyKeys(created) <==> x in created
    ensures Distinct(OwnPropertyKeys(created))
    ensures |OwnPropertyKeys(created)| == |created|
    ensures forall p, q :: 0 <= p < q < |OwnPropertyKeys(created)| && IsArrayIndex(OwnPropertyKeys(created)[q])
              ==> IsArrayIndex(OwnPropertyKeys(created)[p])
                  && DecimalValue(OwnPropertyKeys(created)[p]) <= DecimalValue(OwnPropertyKeys(created)[q])
  {
    var idx := SortByValue(IndexKeys(created));
    var named := NamedKeys(created);
    var r := OwnPropertyKeys(created);
    SortKeepsDistinct(IndexKeys(created));
    SortIsAscending(IndexKeys(created));
    assert r == idx + named;
    forall p, q | 0 <= p < q < |r| ensures r[p] != r[q] {
      if q < |idx| {
        assert r[p] == idx[p] && r[q] == idx[q];
      } else if p >= |idx| {
        assert r[p] == named[p - |idx|] && r[q] == named[q - |idx|];
      } else {
        assert r[p] == idx[p] && r[q] == named[q - |idx|];
        assert r[p] in idx && r[q] in named;
      }
    }
    assert |r| == |created| by {
      DistinctCardinality(r);
      DistinctCardinality(created);
      assert (set x | x in r) == (set x | x in created);
    }
    forall p, q | 0 <= p < q < |r| && IsArrayIndex(r[q])
      ensures IsArrayIndex(r[p]) && DecimalValue(r[p]) <= DecimalValue(r[q])
    {
      assert r[p] == idx[p] && r[q] == idx[q];
      assert r[p] in idx;
      ValuesAt(idx, p);
      ValuesAt(idx, q);
    }
  }

  /** A sequence of distinct keys has as many elements as its set of keys. */
  lemma {:induction false} DistinctCardinality(xs: seq<string>)
    requires Distinct(xs)
    ensures |set x | x in xs| == |xs|
  {
    if xs != [] {
      var init := xs[..|xs| - 1];
      assert Distinct(init) by {
        forall p, q | 0 <= p < q < |init| ensures init[p] != init[q] {
          assert init[p] == xs[p] && init[q] == xs[q];
        }
      }
      DistinctCardinality(init);
      var last := xs[|xs| - 1];
      assert xs == init + [last];
      assert last !in init;
      assert (set x | x in xs) == (set x | x in init) + {last};
    }
  }

  /** A sequence of array indices followed by one of other keys: positions
      before the seam hold array indices, positions after it the other keys. */
  lemma SplitAtSeam(idx: seq<string>, named: seq<string>)
    requires forall x :: x in idx ==> IsArrayIndex(x)
    ensures forall k :: 0 <= k < |idx| ==> IsArrayIndex((idx + named)[k])
    ensures forall k :: |idx| <= k < |idx + named| ==> (idx + named)[k] == named[k - |idx|]
  {
    forall k | 0 <= k < |idx| ensures IsArrayIndex((idx + named)[k]) {
      assert (idx + named)[k] == idx[k] && idx[k] in idx;
    }
  }

  /** The keys after the seam that are not array indices keep the order of
      `named`. */
  lemma SeamKeepsOrder(idx: seq<string>, named: seq<string>, texts: seq<string>)
    requires forall x :: x in idx ==> IsArrayIndex(x)
    requires OrderedBy(named, texts)
    ensures forall p, q :: (0 <= p < q < |idx + named| &&
                            !IsArrayIndex((idx + named)[p]) && !IsArrayIndex((idx + named)[q]))
                          ==> ((idx + named)[p] in texts && (idx + named)[q] in texts &&
                               FirstIndex(texts, (idx + named)[p]) < FirstIndex(texts, (idx + named)[q]))
  {
    SplitAtSeam(idx, named);
    var keys := idx + named;
    var n := |idx|;
    forall p, q | 0 <= p < q < |keys| && !IsArrayIndex(keys[p]) && !IsArrayIndex(keys[q])
      ensures keys[p] in texts && keys[q] in texts && FirstIndex(texts, keys[p]) < FirstIndex(texts, keys[q])
    {
      assert n <= p;
      assert keys[p] == named[p - n] && keys[q] == named[q - n];
    }
  }

  lemma OwnPropertyKeysKeepOrder(created: seq<string>, texts: seq<string>)
    requires OrderedBy(created, texts)
    ensures forall p, q :: (0 <= p < q < |OwnPropertyKeys(created)| &&
                            !IsArrayIndex(OwnPropertyKeys(created)[p]) && !IsArrayIndex(OwnPropertyKeys(created)[q]))
                          ==> (OwnPropertyKeys(created)[p] in texts && OwnPropertyKeys(created)[q] in texts &&
                               FirstIndex(texts, OwnPropertyKeys(created)[p]) < FirstIndex(texts, OwnPropertyKeys(created)[q]))
  {
    NamedKeysKeepOrder(created, texts);
    SeamKeepsOrder(SortByValue(IndexKeys(created)), NamedKeys(created), texts);
  }

}
