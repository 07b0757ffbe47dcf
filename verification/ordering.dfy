/** Byte-wise key order and the ascending enumeration of a set of keys, as std::map iterates them. */
module Ordering {
  import opened Bytes

  /** Lexicographic order, on the bytes of a key or the codes of a text. */
  predicate Less(a: seq<int>, b: seq<int>)
    decreases |b|
  {
    b != [] && (a == [] || a[0] < b[0] || (a[0] == b[0] && Less(a[1..], b[1..])))
  }

  predicate AtMost(a: seq<int>, b: seq<int>) {
    !Less(b, a)
  }

  lemma {:induction false} LessTotal(a: seq<int>, b: seq<int>)
    ensures Less(a, b) ==> a != b && !Less(b, a)
    ensures Less(a, b) || a == b || Less(b, a)
    decreases |a|
  {
    if a != [] && b != [] {
      LessTotal(a[1..], b[1..]);
      if a[0] == b[0] && a[1..] == b[1..] {
        assert a == [a[0]] + a[1..] && b == [b[0]] + b[1..];
      }
    }
  }

  lemma {:induction false} LessTransitive(a: seq<int>, b: seq<int>, c: seq<int>)
    requires Less(a, b) && Less(b, c)
    ensures Less(a, c)
    decreases |a|
  {
    if a != [] && a[0] == b[0] && b[0] == c[0] {
      LessTransitive(a[1..], b[1..], c[1..]);
    }
  }

  /** The first place where the two differ decides, and a proper prefix comes first. */
  lemma {:induction false} LessMeans(a: seq<int>, b: seq<int>)
    ensures Less(a, b) <==> exists i: nat :: DifferAt(a, b, i)
    decreases |a|
  {
    forall i: nat | i > 0 && DifferAt(a, b, i) ensures a != [] && b != [] && a[0] == b[0] {
      assert a[..i][0] == a[0] && b[..i][0] == b[0];
    }
    if b != [] && a != [] && a[0] == b[0] {
      LessMeans(a[1..], b[1..]);
      if i: nat :| DifferAt(a[1..], b[1..], i) {
        assert a[..i + 1] == [a[0]] + a[1..][..i] && b[..i + 1] == [b[0]] + b[1..][..i];
        assert DifferAt(a, b, i + 1);
      }
      if i: nat :| DifferAt(a, b, i) {
        assert a[1..][..i - 1] == a[..i][1..] && b[1..][..i - 1] == b[..i][1..];
        assert DifferAt(a[1..], b[1..], i - 1);
      }
    } else if Less(a, b) {
      assert DifferAt(a, b, 0);
    }
  }

  /** They agree before place i, where a ends or has the lower value. */
  predicate DifferAt(a: seq<int>, b: seq<int>, i: nat) {
    i <= |a| && i < |b| && a[..i] == b[..i] && (i == |a| || a[i] < b[i])
  }

  predicate Ascending(keys: seq<Blob>) {
    forall i, j :: 0 <= i < j < |keys| ==> Less(keys[i], keys[j])
  }

  predicate IsLeast(k: Blob, keys: set<Blob>) {
    k in keys && forall x: Blob :: x in keys && x != k ==> Less(k, x)
  }

  lemma LeastUnique(a: Blob, b: Blob, keys: set<Blob>)
    requires IsLeast(a, keys) && IsLeast(b, keys)
    ensures a == b
  {
    LessTotal(a, b);
  }

  lemma {:induction false} LeastExists(keys: set<Blob>)
    requires keys != {}
    ensures exists k :: IsLeast(k, keys)
    decreases |keys|
  {
    var x: Blob :| x in keys;
    if keys == {x} {
      assert IsLeast(x, keys);
    } else {
      var rest := keys - {x};
      LeastExists(rest);
      var k: Blob :| IsLeast(k, rest);
      LessTotal(k, x);
      if Less(k, x) {
        assert IsLeast(k, keys);
      } else {
        forall y: Blob | y in keys && y != x ensures Less(x, y) {
          if y != k {
            LessTransitive(x, k, y);
          }
        }
        assert IsLeast(x, keys);
      }
    }
  }

  /** The keys in ascending order. */
  function Ordered(keys: set<Blob>): (s: seq<Blob>)
    ensures forall k :: k in s <==> k in keys
    ensures |s| == |keys|
    decreases |keys|
  {
    if keys == {} then []
    else
      LeastExists(keys);
      ghost var least :| IsLeast(least, keys);
      assert forall k :: IsLeast(k, keys) ==> k == least by {
        forall k | IsLeast(k, keys) ensures k == least { LeastUnique(k, least, keys); }
      }
      var k :| k in keys && IsLeast(k, keys);
      [k] + Ordered(keys - {k})
  }

  lemma {:induction false} OrderedAscends(keys: set<Blob>)
    ensures Ascending(Ordered(keys))
    decreases |keys|
  {
    if keys != {} {
      var s := Ordered(keys);
      var rest := keys - {s[0]};
      assert IsLeast(s[0], keys) && s[1..] == Ordered(rest);
      OrderedAscends(rest);
      forall j | 0 < j < |s| ensures Less(s[0], s[j]) {
        assert s[j] in s[1..];
        LessTotal(s[j], s[j]);
      }
      forall i, j | 0 < i < j < |s| ensures Less(s[i], s[j]) {
        assert s[i] == s[1..][i - 1] && s[j] == s[1..][j - 1];
      }
    }
  }

  /** Ascending sequences with the same elements are the same. */
  lemma {:induction false} AscendingUnique(a: seq<Blob>, b: seq<Blob>)
    requires Ascending(a) && Ascending(b)
    requires forall k :: k in a <==> k in b
    ensures a == b
    decreases |a|
  {
    assert b != [] ==> b[0] in b;
    if a != [] {
      assert a[0] in b;
      assert b[0] in a;
      LessTotal(a[0], b[0]);
      FirstLeast(a, b[0]);
      FirstLeast(b, a[0]);
      assert a[0] == b[0];
      forall k ensures k in a[1..] <==> k in b[1..] {
        TailElements(a, k);
        TailElements(b, k);
      }
      assert Ascending(a[1..]) && Ascending(b[1..]);
      AscendingUnique(a[1..], b[1..]);
    }
  }

  lemma FirstLeast(a: seq<Blob>, k: Blob)
    requires Ascending(a) && k in a
    ensures k == a[0] || Less(a[0], k)
  {
  }

  lemma TailElements(a: seq<Blob>, k: Blob)
    requires Ascending(a) && a != []
    ensures k in a[1..] <==> k in a && k != a[0]
  {
    if k in a[1..] {
      var i :| 0 <= i < |a[1..]| && a[1..][i] == k;
      assert a[i + 1] == k;
      LessTotal(a[0], k);
    }
    if k in a && k != a[0] {
      var i :| 0 <= i < |a| && a[i] == k;
      assert a[1..][i - 1] == k;
    }
  }

  // ---- Prefix ranges ----

  predicate HasPrefix(key: Blob, prefix: Blob) {
    |prefix| <= |key| && key[..|prefix|] == prefix
  }

  lemma HasPrefixMeans(key: Blob, prefix: Blob)
    ensures HasPrefix(key, prefix) <==> exists rest: Blob :: key == prefix + rest
  {
    if HasPrefix(key, prefix) {
      assert key == prefix + key[|prefix|..];
    }
  }

  /** The upper end of a prefix range: the last byte that is not 0xFF goes up by one, what follows it is cut. */
  function PrefixEnd(prefix: Blob): Blob
    decreases |prefix|
  {
    if prefix == [] then []
    else
      var last := prefix[|prefix| - 1];
      if last < 0xFF then prefix[..|prefix| - 1] + [last + 1] else PrefixEnd(prefix[..|prefix| - 1])
  }

  /** start <= key <= end, where an empty end is no bound; Scan treats its end as inclusive. */
  predicate InRange(key: Blob, start: Blob, end: Blob) {
    AtMost(start, key) && (end == [] || AtMost(key, end))
  }

  lemma {:induction false} PrefixIsLowerBound(key: Blob, prefix: Blob)
    requires HasPrefix(key, prefix)
    ensures AtMost(prefix, key)
    decreases |prefix|
  {
    if prefix != [] {
      assert key[1..][..|prefix| - 1] == prefix[1..];
      PrefixIsLowerBound(key[1..], prefix[1..]);
    }
  }

  lemma {:induction false} BumpedAbove(key: Blob, stem: Blob, last: byte)
    requires HasPrefix(key, stem + [last]) && last < 0xFF
    ensures Less(key, stem + [last + 1])
    decreases |stem|
  {
    var bumped := stem + [last + 1];
    assert key[|stem|] == (stem + [last])[|stem|];
    if stem != [] {
      assert bumped[1..] == stem[1..] + [last + 1];
      assert (stem + [last])[1..] == stem[1..] + [last];
      assert key[1..][..|stem|] == (stem + [last])[1..];
      assert key[0] == (stem + [last])[0];
      BumpedAbove(key[1..], stem[1..], last);
    }
  }

  /** The carried bound never drops a key with the prefix, 0xFF tails included. */
  lemma {:induction false} PrefixInRange(key: Blob, prefix: Blob)
    requires HasPrefix(key, prefix)
    ensures AtMost(prefix, key)
    ensures PrefixEnd(prefix) != [] ==> Less(key, PrefixEnd(prefix))
    decreases |prefix|
  {
    PrefixIsLowerBound(key, prefix);
    if prefix != [] {
      var stem, last := prefix[..|prefix| - 1], prefix[|prefix| - 1];
      assert prefix == stem + [last];
      if last < 0xFF {
        BumpedAbove(key, stem, last);
      } else {
        assert key[..|stem|] == prefix[..|stem|];
        PrefixInRange(key, stem);
      }
    }
  }

  /** Conversely, a key below the bound has the prefix: the range is exact but for its inclusive end. */
  lemma {:induction false} RangeHasPrefix(key: Blob, prefix: Blob)
    requires AtMost(prefix, key) && Less(key, PrefixEnd(prefix))
    ensures HasPrefix(key, prefix)
    decreases |prefix|
  {
    if prefix != [] {
      var stem, last := prefix[..|prefix| - 1], prefix[|prefix| - 1];
      assert prefix == stem + [last];
      if last < 0xFF {
        BetweenBumps(key, stem, last);
      } else {
        StemBelow(stem, last, key);
        RangeHasPrefix(key, stem);
        AboveFullByte(key, stem);
      }
    }
  }

  lemma {:induction false} BetweenBumps(key: Blob, stem: Blob, last: byte)
    requires last < 0xFF && AtMost(stem + [last], key) && Less(key, stem + [last + 1])
    ensures HasPrefix(key, stem + [last])
    decreases |stem|
  {
    if stem == [] {
      assert key != [] && key[0] == last;
      assert key[..1] == [last];
    } else {
      var low, high := stem + [last], stem + [last + 1];
      assert key != [] && key[0] == stem[0];
      assert low[1..] == stem[1..] + [last] && high[1..] == stem[1..] + [last + 1];
      BetweenBumps(key[1..], stem[1..], last);
      assert key[..|low|] == [key[0]] + key[1..][..|stem|];
      assert low == [low[0]] + low[1..];
    }
  }

  lemma {:induction false} StemBelow(stem: Blob, last: byte, key: Blob)
    requires AtMost(stem + [last], key)
    ensures AtMost(stem, key)
    decreases |stem|
  {
    if stem != [] && key != [] {
      assert (stem + [last])[1..] == stem[1..] + [last];
      if key[0] == stem[0] {
        StemBelow(stem[1..], last, key[1..]);
      }
    }
  }

  lemma {:induction false} AboveFullByte(key: Blob, stem: Blob)
    requires HasPrefix(key, stem) && AtMost(stem + [0xFF], key)
    ensures HasPrefix(key, stem + [0xFF])
    decreases |stem|
  {
    if stem == [] {
      assert key[..1] == [key[0]];
    } else {
      assert (stem + [0xFF])[1..] == stem[1..] + [0xFF];
      assert key[1..][..|stem| - 1] == stem[1..];
      assert key[0] == stem[0];
      AboveFullByte(key[1..], stem[1..]);
      assert key[..|stem| + 1] == [key[0]] + key[1..][..|stem|];
      assert stem + [0xFF] == [stem[0]] + (stem[1..] + [0xFF]);
    }
  }
}
