/** PHP arrays as ordered key/value lists, and the library function
    `array_replace_recursive` that the build uses to layer configuration
    documents (app/phalcon/modules/cli/tasks/BuildTask.php:285).

    A PHP array keeps its keys in insertion order; assigning to an existing
    key overwrites the value in place, assigning to a new key appends it.
    Lists are arrays whose keys are 0, 1, 2, ... and get no special
    treatment. The key casts PHP performs on the way in ("5" becomes 5) are
    taken to have happened already. */
module PhpArray {
  import opened Outcomes

  datatype Key = IntKey(i: int) | StrKey(s: string)

  /** The scalar values a parsed YAML document holds (floats are not
      distinguished from other scalars by the merge and are left out). */
  datatype Scalar = Null | Bool(b: bool) | Int(n: int) | Str(s: string)

  datatype Value = Scalar(scalar: Scalar) | Arr(entries: seq<Entry>)

  datatype Entry = Entry(key: Key, val: Value)

  function KeysOf(es: seq<Entry>): seq<Key>
  {
    seq(|es|, i requires 0 <= i < |es| => es[i].key)
  }

  /** A PHP array value proper: keys are unique at every level. */
  ghost predicate WellFormed(v: Value)
    decreases v
  {
    match v
    case Scalar(_) => true
    case Arr(es) =>
      && Distinct(KeysOf(es))
      && forall i :: 0 <= i < |es| ==> WellFormed(es[i].val)
  }

  /** `$a[$k]` (with `isset`): the value stored under `k`, if any. */
  function Lookup(es: seq<Entry>, k: Key): (r: Option<Value>)
    ensures r.Some? <==> k in KeysOf(es)
    ensures r.Some? ==> Entry(k, r.value) in es
  {
    if es == [] then None
    else if es[0].key == k then
      assert KeysOf(es)[0] == k;
      Some(es[0].val)
    else
      assert KeysOf(es) == [es[0].key] + KeysOf(es[1..]);
      Lookup(es[1..], k)
  }

  /** `$a[$k] = $v`: overwrite in place when the key exists, append otherwise. */
  function Put(es: seq<Entry>, k: Key, v: Value): (r: seq<Entry>)
    ensures k in KeysOf(es) ==> KeysOf(r) == KeysOf(es)
    ensures k !in KeysOf(es) ==> r == es + [Entry(k, v)]
    ensures Lookup(r, k) == Some(v)
    ensures forall k' :: k' != k ==> Lookup(r, k') == Lookup(es, k')
    ensures forall e :: e in r ==> e == Entry(k, v) || e in es
  {
    if es == [] then [Entry(k, v)]
    else if es[0].key == k then
      assert KeysOf(es)[0] == k;
      [Entry(k, v)] + es[1..]
    else
      assert KeysOf(es) == [es[0].key] + KeysOf(es[1..]);
      var r := [es[0]] + Put(es[1..], k, v);
      assert KeysOf(r) == [es[0].key] + KeysOf(r[1..]);
      r
  }

  /** The value `array_replace_recursive` leaves under a key of the
      replacement: the two values are merged when both are arrays, and the
      replacement wins otherwise. */
  function Overlay(prior: Option<Value>, repl: Value): Value
    decreases repl
  {
    match (prior, repl)
    case (Some(Arr(be)), Arr(oe)) => Arr(Apply(be, oe, |oe|))
    case _ => repl
  }

  /** The first `n` entries of `over` replaced into `base`, in order; this is
      the loop over the replacement in PHP's `php_array_replace_recursive`. */
  function Apply(base: seq<Entry>, over: seq<Entry>, n: nat): seq<Entry>
    requires n <= |over|
    decreases Arr(over), n
  {
    if n == 0 then base
    else
      var acc := Apply(base, over, n - 1);
      var e := over[n - 1];
      Put(acc, e.key, Overlay(Lookup(acc, e.key), e.val))
  }

  /** `array_replace_recursive($base, $over)`. */
  function Replace(base: seq<Entry>, over: seq<Entry>): seq<Entry>
  {
    Apply(base, over, |over|)
  }

  /** `array_replace_recursive($base, $o1, $o2, ...)`: each replacement is
      applied to the result of the previous ones. */
  function ReplaceAll(base: seq<Entry>, overs: seq<seq<Entry>>): seq<Entry>
    decreases overs
  {
    if overs == [] then base else ReplaceAll(Replace(base, overs[0]), overs[1..])
  }

  /** Replacing with one more document at the end is one more `Replace` on
      the result: the documents are layered left to right. */
  lemma {:induction false} ReplaceAllSnoc(base: seq<Entry>, overs: seq<seq<Entry>>, last: seq<Entry>)
    ensures ReplaceAll(base, overs + [last]) == Replace(ReplaceAll(base, overs), last)
    decreases overs
  {
    if overs == [] {
      assert overs + [last] == [last];
      assert ReplaceAll(Replace(base, last), []) == Replace(base, last);
    } else {
      assert (overs + [last])[1..] == overs[1..] + [last];
      ReplaceAllSnoc(Replace(base, overs[0]), overs[1..], last);
    }
  }

  /** The keys of `ks` not in `seen`, in their order. */
  function Fresh(ks: seq<Key>, seen: seq<Key>): seq<Key>
  {
    if ks == [] then [] else (if ks[0] in seen then [] else [ks[0]]) + Fresh(ks[1..], seen)
  }

  // ---------------------------------------------------------------------
  // Helper facts

  lemma {:induction false} LookupAt(es: seq<Entry>, i: nat)
    requires Distinct(KeysOf(es))
    requires i < |es|
    ensures Lookup(es, es[i].key) == Some(es[i].val)
  {
    if i > 0 {
      assert KeysOf(es)[0] != KeysOf(es)[i];
      assert KeysOf(es[1..]) == KeysOf(es)[1..];
      LookupAt(es[1..], i - 1);
    }
  }

  lemma {:induction false} FreshSnoc(ks: seq<Key>, k: Key, seen: seq<Key>)
    ensures Fresh(ks + [k], seen) == Fresh(ks, seen) + (if k in seen then [] else [k])
  {
    if ks == [] {
      assert ks + [k] == [k];
    } else {
      assert (ks + [k])[1..] == ks[1..] + [k];
      FreshSnoc(ks[1..], k, seen);
    }
  }

  lemma {:induction false} FreshSubset(ks: seq<Key>, seen: seq<Key>)
    ensures forall k :: k in Fresh(ks, seen) ==> k in ks && k !in seen
  {
    if ks != [] {
      FreshSubset(ks[1..], seen);
    }
  }

  lemma {:induction false} FreshAllSeen(ks: seq<Key>, seen: seq<Key>)
    requires forall k :: k in ks ==> k in seen
    ensures Fresh(ks, seen) == []
  {
    if ks != [] {
      FreshAllSeen(ks[1..], seen);
    }
  }

  lemma {:induction false} FreshNothingSeen(ks: seq<Key>)
    ensures Fresh(ks, []) == ks
  {
    if ks != [] {
      FreshNothingSeen(ks[1..]);
    }
  }

  /** In an array with unique keys, the key at position `n - 1` does not
      occur before it. */
  lemma {:induction false} LastKeyIsNew(es: seq<Entry>, n: nat)
    requires Distinct(KeysOf(es))
    requires 0 < n <= |es|
    ensures es[n - 1].key !in KeysOf(es)[..n - 1]
    ensures KeysOf(es)[..n] == KeysOf(es)[..n - 1] + [es[n - 1].key]
  {
    assert forall j :: 0 <= j < n - 1 ==> KeysOf(es)[j] != KeysOf(es)[n - 1];
  }

  lemma {:induction false} KeysOfSnoc(es: seq<Entry>, e: Entry)
    ensures KeysOf(es + [e]) == KeysOf(es) + [e.key]
  {
  }

  lemma {:induction false} ApplyStep(base: seq<Entry>, over: seq<Entry>, n: nat)
    requires 0 < n <= |over|
    ensures var acc := Apply(base, over, n - 1);
            Apply(base, over, n) == Put(acc, over[n - 1].key, Overlay(Lookup(acc, over[n - 1].key), over[n - 1].val))
  {
  }

  /** Two arrays with the same keys in the same order and the same value
      under every key are the same array. */
  lemma {:induction false} Extensionality(x: seq<Entry>, y: seq<Entry>)
    requires Distinct(KeysOf(x))
    requires KeysOf(x) == KeysOf(y)
    requires forall k :: Lookup(x, k) == Lookup(y, k)
    ensures x == y
  {
    assert |x| == |KeysOf(x)| == |KeysOf(y)| == |y|;
    forall i | 0 <= i < |x|
      ensures x[i] == y[i]
    {
      assert x[i].key == KeysOf(x)[i] == KeysOf(y)[i] == y[i].key;
      LookupAt(x, i);
      LookupAt(y, i);
    }
  }

  // ---------------------------------------------------------------------
  // What one replacement step does

  /** The key order after a replacement: the base's keys, in their order,
      followed by the replacement's new keys, in the replacement's order. */
  lemma {:induction false} KeysAfterPut(acc: seq<Entry>, k: Key, v: Value, baseKeys: seq<Key>, prev: seq<Key>)
    requires KeysOf(acc) == baseKeys + Fresh(prev, baseKeys)
    requires k !in prev
    ensures KeysOf(Put(acc, k, v)) == baseKeys + Fresh(prev + [k], baseKeys)
  {
    FreshSubset(prev, baseKeys);
    FreshSnoc(prev, k, baseKeys);
    if k !in baseKeys {
      KeysOfSnoc(acc, Entry(k, v));
    }
  }

  lemma {:induction false} ApplyKeys(base: seq<Entry>, over: seq<Entry>, n: nat)
    requires Distinct(KeysOf(over))
    requires n <= |over|
    ensures KeysOf(Apply(base, over, n)) == KeysOf(base) + Fresh(KeysOf(over)[..n], KeysOf(base))
  {
    if n > 0 {
      var acc := Apply(base, over, n - 1);
      var k := over[n - 1].key;
      var v := Overlay(Lookup(acc, k), over[n - 1].val);
      ApplyKeys(base, over, n - 1);
      LastKeyIsNew(over, n);
      KeysAfterPut(acc, k, v, KeysOf(base), KeysOf(over)[..n - 1]);
      ApplyStep(base, over, n);
      assert Apply(base, over, n) == Put(acc, k, v);
    }
  }

  lemma {:induction false} ReplaceKeys(base: seq<Entry>, over: seq<Entry>)
    requires Distinct(KeysOf(over))
    ensures KeysOf(Replace(base, over)) == KeysOf(base) + Fresh(KeysOf(over), KeysOf(base))
  {
    ApplyKeys(base, over, |over|);
    assert KeysOf(over)[..|over|] == KeysOf(over);
  }

  lemma {:induction false} ApplyLookup(base: seq<Entry>, over: seq<Entry>, n: nat, k: Key)
    requires Distinct(KeysOf(over))
    requires n <= |over|
    ensures Lookup(Apply(base, over, n), k)
         == if k in KeysOf(over)[..n] then Some(Overlay(Lookup(base, k), Lookup(over, k).value))
            else Lookup(base, k)
  {
    if n > 0 {
      ApplyLookup(base, over, n - 1, k);
      ApplyStep(base, over, n);
      LastKeyIsNew(over, n);
      if k == over[n - 1].key {
        LookupAt(over, n - 1);
      }
    }
  }

  /** Merge semantics of `array_replace_recursive`, key by key: a key only in
      the base keeps its value; a replacement value wins unless both sides
      hold arrays, in which case the two arrays are merged recursively. */
  lemma {:induction false} ReplaceLookup(base: seq<Entry>, over: seq<Entry>, k: Key)
    requires Distinct(KeysOf(over))
    ensures k !in KeysOf(over) ==> Lookup(Replace(base, over), k) == Lookup(base, k)
    ensures k in KeysOf(over) && !(Lookup(base, k).Some? && Lookup(base, k).value.Arr? && Lookup(over, k).value.Arr?)
            ==> Lookup(Replace(base, over), k) == Lookup(over, k)
    ensures k in KeysOf(over) && Lookup(base, k).Some? && Lookup(base, k).value.Arr? && Lookup(over, k).value.Arr?
            ==> Lookup(Replace(base, over), k)
                == Some(Arr(Replace(Lookup(base, k).value.entries, Lookup(over, k).value.entries)))
  {
    ApplyLookup(base, over, |over|, k);
    assert KeysOf(over)[..|over|] == KeysOf(over);
  }

  // ---------------------------------------------------------------------
  // Well-formedness is preserved

  lemma {:induction false} OverlayWellFormed(prior: Option<Value>, repl: Value)
    requires prior.Some? ==> WellFormed(prior.value)
    requires WellFormed(repl)
    ensures WellFormed(Overlay(prior, repl))
    decreases repl
  {
    match (prior, repl)
    case (Some(Arr(be)), Arr(oe)) =>
      ApplyWellFormed(be, oe, |oe|);
    case _ =>
  }

  lemma {:induction false} ApplyWellFormed(base: seq<Entry>, over: seq<Entry>, n: nat)
    requires WellFormed(Arr(base))
    requires WellFormed(Arr(over))
    requires n <= |over|
    ensures WellFormed(Arr(Apply(base, over, n)))
    decreases Arr(over), n
  {
    if n > 0 {
      var acc := Apply(base, over, n - 1);
      var e := over[n - 1];
      var prior := Lookup(acc, e.key);
      ApplyWellFormed(base, over, n - 1);
      assert prior.Some? ==> WellFormed(prior.value) by {
        if prior.Some? {
          var j :| 0 <= j < |acc| && acc[j] == Entry(e.key, prior.value);
        }
      }
      assert WellFormed(e.val);
      OverlayWellFormed(prior, e.val);
      var v := Overlay(prior, e.val);
      PutWellFormed(acc, e.key, v);
      ApplyStep(base, over, n);
      assert Apply(base, over, n) == Put(acc, e.key, v);
    }
  }

  lemma {:induction false} PutWellFormed(es: seq<Entry>, k: Key, v: Value)
    requires WellFormed(Arr(es))
    requires WellFormed(v)
    ensures WellFormed(Arr(Put(es, k, v)))
  {
    var r := Put(es, k, v);
    forall i | 0 <= i < |r|
      ensures WellFormed(r[i].val)
    {
      assert r[i] in r;
      if r[i] != Entry(k, v) {
        var j :| 0 <= j < |es| && es[j] == r[i];
      }
    }
    if k !in KeysOf(es) {
      KeysOfSnoc(es, Entry(k, v));
    }
  }

  lemma {:induction false} ReplaceWellFormed(base: seq<Entry>, over: seq<Entry>)
    requires WellFormed(Arr(base))
    requires WellFormed(Arr(over))
    ensures WellFormed(Arr(Replace(base, over)))
  {
    ApplyWellFormed(base, over, |over|);
  }

  // ---------------------------------------------------------------------
  // Algebraic laws

  /** Merging with an empty replacement leaves the base as it was. */
  lemma {:induction false} ReplaceEmptyOverlay(base: seq<Entry>)
    ensures Replace(base, []) == base
  {
  }

  /** Replacing into an empty array gives the replacement back. */
  lemma {:induction false} ApplyOntoEmpty(over: seq<Entry>, n: nat)
    requires Distinct(KeysOf(over))
    requires n <= |over|
    ensures Apply([], over, n) == over[..n]
  {
    if n > 0 {
      var acc := Apply([], over, n - 1);
      var k := over[n - 1].key;
      var v := Overlay(Lookup(acc, k), over[n - 1].val);
      ApplyOntoEmpty(over, n - 1);
      assert acc == over[..n - 1];
      LastKeyIsNew(over, n);
      assert KeysOf(over[..n - 1]) == KeysOf(over)[..n - 1];
      assert k !in KeysOf(acc);
      PutNewKey(acc, over[n - 1]);
      assert Put(acc, k, v) == over[..n];
      ApplyStep([], over, n);
      assert Apply([], over, n) == Put(acc, k, v);
    }
  }

  /** Replacing a key the base does not hold appends the entry unchanged. */
  lemma {:induction false} PutNewKey(acc: seq<Entry>, e: Entry)
    requires e.key !in KeysOf(acc)
    ensures Put(acc, e.key, Overlay(Lookup(acc, e.key), e.val)) == acc + [e]
  {
    assert Lookup(acc, e.key) == None;
  }

  lemma {:induction false} ReplaceOntoEmpty(over: seq<Entry>)
    requires Distinct(KeysOf(over))
    ensures Replace([], over) == over
  {
    ApplyOntoEmpty(over, |over|);
    assert over[..|over|] == over;
  }

  lemma {:induction false} OverlayIdempotent(prior: Option<Value>, repl: Value)
    requires prior.Some? ==> WellFormed(prior.value)
    requires WellFormed(repl)
    ensures Overlay(Some(Overlay(prior, repl)), repl) == Overlay(prior, repl)
    decreases repl
  {
    match (prior, repl)
    case (Some(Arr(be)), Arr(oe)) =>
      ReplaceIdempotent(be, oe);
    case (_, Arr(oe)) =>
      ReplaceIdempotent([], oe);
      ReplaceOntoEmpty(oe);
    case _ =>
  }

  /** Replacing the same document a second time changes nothing:
      `array_replace_recursive(array_replace_recursive($a, $b), $b)`
      equals `array_replace_recursive($a, $b)`. */
  lemma {:induction false} ReplaceIdempotent(a: seq<Entry>, b: seq<Entry>)
    requires WellFormed(Arr(a))
    requires WellFormed(Arr(b))
    ensures Replace(Replace(a, b), b) == Replace(a, b)
    decreases Arr(b), 0
  {
    var r1 := Replace(a, b);
    var r2 := Replace(r1, b);
    ReplaceWellFormed(a, b);
    ReplaceKeys(a, b);
    ReplaceKeys(r1, b);
    FreshAllSeen(KeysOf(b), KeysOf(r1)) by {
      forall k | k in KeysOf(b)
        ensures k in KeysOf(r1)
      {
        if k !in KeysOf(a) {
          ApplyLookup(a, b, |b|, k);
          assert b[..|b|] == b;
        }
      }
    }
    forall k
      ensures Lookup(r2, k) == Lookup(r1, k)
    {
      ApplyLookup(a, b, |b|, k);
      ApplyLookup(r1, b, |b|, k);
      assert b[..|b|] == b;
      if k in KeysOf(b) {
        var i :| 0 <= i < |b| && KeysOf(b)[i] == k;
        LookupAt(b, i);
        var prior := Lookup(a, k);
        assert prior.Some? ==> WellFormed(prior.value) by {
          if prior.Some? {
            var j :| 0 <= j < |a| && a[j] == Entry(k, prior.value);
          }
        }
        OverlayIdempotent(prior, b[i].val);
      }
    }
    Extensionality(r2, r1);
  }

  /** Lists are merged position by position, not replaced wholesale:
      `array_replace_recursive(['a', 'b', 'c'], ['x'])` is `['x', 'b', 'c']`. */
  lemma {:induction false} ListsMergeByIndex()
    ensures Replace([Entry(IntKey(0), Scalar(Str("a"))), Entry(IntKey(1), Scalar(Str("b"))), Entry(IntKey(2), Scalar(Str("c")))],
                    [Entry(IntKey(0), Scalar(Str("x")))])
         == [Entry(IntKey(0), Scalar(Str("x"))), Entry(IntKey(1), Scalar(Str("b"))), Entry(IntKey(2), Scalar(Str("c")))]
  {
  }
}
