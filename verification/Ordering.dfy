/** Byte-wise key order and the cursor over an ordered bucket (go.etcd.io/bbolt's Cursor). */
module Ordering {
  import opened Basics
  import opened Keys

  predicate Less(a: Bytes, b: Bytes)
    decreases |a|
  {
    b != [] && (a == [] || a[0] < b[0] || (a[0] == b[0] && Less(a[1..], b[1..])))
  }

  predicate AtMost(a: Bytes, b: Bytes) {
    a == b || Less(a, b)
  }

  lemma {:induction false} LessTotal(a: Bytes, b: Bytes)
    ensures a == b || Less(a, b) || Less(b, a)
    decreases |a|
  {
    if a != [] && b != [] && a[0] == b[0] {
      LessTotal(a[1..], b[1..]);
      assert a == [a[0]] + a[1..] && b == [b[0]] + b[1..];
    }
  }

  lemma {:induction false} LessTransitive(a: Bytes, b: Bytes, c: Bytes)
    requires Less(a, b) && Less(b, c)
    ensures Less(a, c)
    decreases |a|
  {
    if a != [] && a[0] == b[0] == c[0] {
      LessTransitive(a[1..], b[1..], c[1..]);
    }
  }

  lemma {:induction false} LessIrreflexive(a: Bytes)
    ensures !Less(a, a)
    decreases |a|
  {
    if a != [] {
      LessIrreflexive(a[1..]);
    }
  }

  /** A prefix is no larger than what it is a prefix of. */
  lemma {:induction false} PrefixAtMost(p: Bytes, k: Bytes)
    requires HasPrefix(k, p)
    ensures AtMost(p, k)
    decreases |p|
  {
    if p != [] {
      assert k[..|p|][0] == k[0];
      assert k[1..][..|p| - 1] == k[..|p|][1..];
      PrefixAtMost(p[1..], k[1..]);
      assert p == [p[0]] + p[1..] && k == [k[0]] + k[1..];
    }
  }

  /** Keys with a common prefix lie together: between the prefix and such a key there is nothing else. */
  lemma {:induction false} PrefixInterval(p: Bytes, k: Bytes, later: Bytes)
    requires AtMost(p, k) && Less(k, later) && HasPrefix(later, p)
    ensures HasPrefix(k, p)
    decreases |p|
  {
    if p != [] && p != k {
      assert later[..|p|][0] == later[0] && p[0] == later[0];
      assert later[1..][..|p| - 1] == later[..|p|][1..];
      assert k[0] == p[0];
      PrefixInterval(p[1..], k[1..], later[1..]);
      assert k[..|p|] == [k[0]] + k[1..][..|p| - 1];
    }
  }

  /** The smallest key satisfying the bound, as a cursor's Seek and Next return it. */
  ghost predicate IsLeast(keys: set<Bytes>, k: Bytes) {
    k in keys && forall x :: x in keys ==> AtMost(k, x)
  }

  method Least(keys: set<Bytes>) returns (k: Option<Bytes>)
    ensures keys == {} <==> k.None?
    ensures k.Some? ==> IsLeast(keys, k.value)
  {
    if keys == {} {
      return None;
    }
    var best :| best in keys;
    var rest := keys - {best};
    while rest != {}
      invariant rest <= keys && best in keys
      invariant forall x :: x in keys && x !in rest ==> AtMost(best, x)
    {
      var x :| x in rest;
      LessTotal(best, x);
      if Less(x, best) {
        forall y | y in keys && y !in rest ensures AtMost(x, y) {
          if y != best {
            LessTransitive(x, best, y);
          }
        }
        best := x;
      }
      rest := rest - {x};
    }
    return Some(best);
  }

  function From(keys: set<Bytes>, p: Bytes): set<Bytes> {
    set x | x in keys && AtMost(p, x)
  }

  function After(keys: set<Bytes>, c: Bytes): set<Bytes> {
    set x | x in keys && Less(c, x)
  }

  /** The keys a prefix scan has not passed yet. */
  function Ahead(keys: set<Bytes>, p: Bytes, found: seq<Bytes>): set<Bytes> {
    if found == [] then From(keys, p) else After(keys, Last(found))
  }

  /** The cursor loop of a prefix scan, which stops at the first key outside the prefix. */
  method PrefixScan(keys: set<Bytes>, p: Bytes) returns (found: seq<Bytes>)
    ensures forall k :: k in found <==> k in keys && HasPrefix(k, p)
    ensures forall i, j :: 0 <= i < j < |found| ==> Less(found[i], found[j])
  {
    found := [];
    var k := Least(From(keys, p));
    forall x | x in keys && HasPrefix(x, p) ensures x in From(keys, p) {
      PrefixAtMost(p, x);
    }
    while k.Some?
      invariant if k.None? then Ahead(keys, p, found) == {} else IsLeast(Ahead(keys, p, found), k.value)
      invariant found != [] ==> AtMost(p, Last(found))
      invariant forall x :: x in found ==> x in keys && HasPrefix(x, p)
      invariant forall x :: x in keys && HasPrefix(x, p) ==> x in found || x in Ahead(keys, p, found)
      invariant forall i, j :: 0 <= i < j < |found| ==> Less(found[i], found[j])
      decreases Ahead(keys, p, found)
    {
      if found != [] {
        AtMostLess(p, Last(found), k.value);
      }
      if !HasPrefix(k.value, p) {
        forall x | x in keys && HasPrefix(x, p) ensures x in found {
          if x in Ahead(keys, p, found) {
            PrefixInterval(p, k.value, x);
          }
        }
        return;
      }
      StepAhead(keys, p, found, k.value);
      found := found + [k.value];
      k := Least(After(keys, k.value));
    }
  }

  lemma AtMostLess(a: Bytes, b: Bytes, c: Bytes)
    requires AtMost(a, b) && Less(b, c)
    ensures AtMost(a, c)
  {
    if a != b {
      LessTransitive(a, b, c);
    }
  }

  /** Passing the least key leaves exactly the keys after it. */
  lemma StepAhead(keys: set<Bytes>, p: Bytes, found: seq<Bytes>, k: Bytes)
    requires IsLeast(Ahead(keys, p, found), k)
    requires found != [] ==> AtMost(p, Last(found))
    requires forall i, j :: 0 <= i < j < |found| ==> Less(found[i], found[j])
    ensures After(keys, k) == Ahead(keys, p, found) - {k}
    ensures forall i :: 0 <= i < |found| ==> Less(found[i], k)
  {
    LessIrreflexive(k);
    forall x | x in After(keys, k) ensures x in Ahead(keys, p, found) {
      if found == [] {
        AtMostLess(p, k, x);
      } else {
        LessTransitive(Last(found), k, x);
      }
    }
    forall i | 0 <= i < |found| ensures Less(found[i], k) {
      if i < |found| - 1 {
        LessTransitive(found[i], Last(found), k);
      }
    }
  }
}
