/** The string operations the chaincode relies on: strconv.Itoa, strings.Split, strings.Contains,
    and the byte order in which the ledger's range scans return keys. */
module Text {

  function DigitChar(d: nat): (c: char)
    requires d < 10
    ensures '0' <= c <= '9'
    ensures c as int - '0' as int == d
  {
    ('0' as int + d) as char
  }

  /** strconv.Itoa on a non-negative number: its decimal digits, most significant first. */
  function NatToString(n: nat): (s: string)
    ensures |s| >= 1
    ensures n >= 10 ==> |s| >= 2
    ensures forall i :: 0 <= i < |s| ==> '0' <= s[i] <= '9'
    decreases n
  {
    if n < 10 then [DigitChar(n)] else NatToString(n / 10) + [DigitChar(n % 10)]
  }

  /** Different numbers print differently, so numbered identifiers never collide. */
  lemma {:induction false} NatToStringInjective(m: nat, n: nat)
    requires NatToString(m) == NatToString(n)
    ensures m == n
  {
    var sm, sn := NatToString(m), NatToString(n);
    if m < 10 && n < 10 {
      assert sm[0] == DigitChar(m) && sn[0] == DigitChar(n);
    } else if m >= 10 && n >= 10 {
      assert sm[|sm| - 1] == DigitChar(m % 10) && sn[|sn| - 1] == DigitChar(n % 10);
      assert sm[..|sm| - 1] == NatToString(m / 10);
      assert sn[..|sn| - 1] == NatToString(n / 10);
      NatToStringInjective(m / 10, n / 10);
    }
  }

  /** A fixed prefix followed by a number determines the number. */
  lemma NumberedInjective(prefix: string, m: nat, n: nat)
    requires prefix + NatToString(m) == prefix + NatToString(n)
    ensures m == n
  {
    var a, b := prefix + NatToString(m), prefix + NatToString(n);
    assert a[|prefix|..] == NatToString(m) && b[|prefix|..] == NatToString(n);
    NatToStringInjective(m, n);
  }

  /** The position of the first `c` in `s`. */
  function IndexOf(s: string, c: char): (i: nat)
    requires c in s
    ensures i < |s| && s[i] == c && c !in s[..i]
  {
    if s[0] == c then 0 else 1 + IndexOf(s[1..], c)
  }

  /** strings.Split with a one-character separator: the maximal separator-free pieces, in order. */
  function Split(s: string, sep: char): (parts: seq<string>)
    ensures |parts| >= 1
    ensures forall k :: 0 <= k < |parts| ==> sep !in parts[k]
    decreases |s|
  {
    if sep !in s then [s]
    else
      var i := IndexOf(s, sep);
      [s[..i]] + Split(s[i + 1..], sep)
  }

  /** strings.Join with a one-character separator, the inverse of Split. */
  function Join(parts: seq<string>, sep: char): string
    requires |parts| >= 1
    decreases |parts|
  {
    if |parts| == 1 then parts[0] else parts[0] + [sep] + Join(parts[1..], sep)
  }

  lemma {:induction false} JoinSplit(s: string, sep: char)
    ensures Join(Split(s, sep), sep) == s
    decreases |s|
  {
    if sep in s {
      var i := IndexOf(s, sep);
      var head, tail := s[..i], s[i + 1..];
      assert s == head + [sep] + tail;
      SplitAfterPiece(head, tail, sep);
      JoinSplit(tail, sep);
      JoinCons(head, Split(tail, sep), sep);
    }
  }

  lemma JoinCons(head: string, parts: seq<string>, sep: char)
    requires |parts| >= 1
    ensures Join([head] + parts, sep) == head + [sep] + Join(parts, sep)
  {
    assert ([head] + parts)[1..] == parts;
  }

  lemma {:induction false} SplitJoin(parts: seq<string>, sep: char)
    requires |parts| >= 1
    requires forall k :: 0 <= k < |parts| ==> sep !in parts[k]
    ensures Split(Join(parts, sep), sep) == parts
    decreases |parts|
  {
    if |parts| > 1 {
      var rest := parts[1..];
      assert forall k :: 0 <= k < |rest| ==> rest[k] == parts[k + 1];
      SplitJoin(rest, sep);
      assert Join(parts, sep) == parts[0] + [sep] + Join(rest, sep);
      SplitAfterPiece(parts[0], Join(rest, sep), sep);
      assert parts == [parts[0]] + rest;
    }
  }

  /** A separator-free piece followed by the separator is split off as the first part. */
  lemma SplitAfterPiece(piece: string, rest: string, sep: char)
    requires sep !in piece
    ensures Split(piece + [sep] + rest, sep) == [piece] + Split(rest, sep)
  {
    var s := piece + [sep] + rest;
    assert s[|piece|] == sep;
    assert s[..|piece|] == piece;
    assert IndexOf(s, sep) == |piece|;
    assert s[|piece| + 1..] == rest;
  }

  /** In `p + [sep] + q` with a separator-free `p`, the first separator is the one after `p`. */
  lemma FirstSepAt(p: string, q: string, sep: char)
    requires sep !in p
    ensures sep in p + [sep] + q && IndexOf(p + [sep] + q, sep) == |p|
  {
    var s := p + [sep] + q;
    assert s[|p|] == sep;
    assert s[..|p|] == p;
  }

  /** A printed number holds no character other than digits. */
  lemma NumberedHasNo(prefix: string, n: nat, c: char)
    requires c !in prefix && !('0' <= c <= '9')
    ensures c !in prefix + NatToString(n)
  {
    var s := prefix + NatToString(n);
    forall i | 0 <= i < |s|
      ensures s[i] != c
    {
      if i >= |prefix| {
        assert s[i] == NatToString(n)[i - |prefix|];
      }
    }
  }

  predicate OccursAt(s: string, part: string, i: int)
  {
    0 <= i && i + |part| <= |s| && s[i..i + |part|] == part
  }

  /** strings.Contains: `part` occurs somewhere in `s`. */
  predicate Contains(s: string, part: string)
  {
    exists i | 0 <= i <= |s| - |part| :: OccursAt(s, part, i)
  }

  lemma ContainsPrefix(prefix: string, rest: string)
    ensures Contains(prefix + rest, prefix)
  {
    assert OccursAt(prefix + rest, prefix, 0);
  }

  /** The order of keys in a range scan: code-point order, which is the byte order of their UTF-8 encoding. */
  predicate LexLess(a: string, b: string)
    decreases |a|
  {
    if |a| == 0 then |b| > 0
    else if |b| == 0 then false
    else a[0] < b[0] || (a[0] == b[0] && LexLess(a[1..], b[1..]))
  }

  lemma {:induction false} LexIrreflexive(a: string)
    ensures !LexLess(a, a)
    decreases |a|
  {
    if |a| > 0 {
      LexIrreflexive(a[1..]);
    }
  }

  lemma {:induction false} LexTransitive(a: string, b: string, c: string)
    requires LexLess(a, b) && LexLess(b, c)
    ensures LexLess(a, c)
    decreases |a|
  {
    if |a| > 0 && a[0] == b[0] && b[0] == c[0] {
      LexTransitive(a[1..], b[1..], c[1..]);
    }
  }

  lemma {:induction false} LexTotal(a: string, b: string)
    requires a != b
    ensures LexLess(a, b) || LexLess(b, a)
    decreases |a|
  {
    if |a| > 0 && |b| > 0 && a[0] == b[0] {
      assert a == [a[0]] + a[1..] && b == [b[0]] + b[1..];
      LexTotal(a[1..], b[1..]);
    }
  }

  /** The keys are in strictly ascending scan order. */
  predicate Ascending(r: seq<string>)
  {
    forall i, j :: 0 <= i < j < |r| ==> LexLess(r[i], r[j])
  }

  /** Every non-empty key set has a least key. */
  lemma {:induction false} LeastExists(keys: set<string>)
    requires keys != {}
    ensures exists m :: m in keys && forall k :: k in keys && k != m ==> LexLess(m, k)
    decreases |keys|
  {
    var x :| x in keys;
    var rest := keys - {x};
    if rest != {} {
      LeastExists(rest);
      var m :| m in rest && forall k :: k in rest && k != m ==> LexLess(m, k);
      LexTotal(x, m);
      if LexLess(x, m) {
        forall k | k in keys && k != x
          ensures LexLess(x, k)
        {
          if k != m {
            LexTransitive(x, m, k);
          }
        }
      } else {
        assert forall k :: k in keys && k != m ==> LexLess(m, k);
      }
    } else {
      assert forall k :: k in keys && k != x ==> k in rest;
    }
  }

  ghost function LeastKey(keys: set<string>): (m: string)
    requires keys != {}
    ensures m in keys && forall k :: k in keys && k != m ==> LexLess(m, k)
  {
    LeastExists(keys);
    var m :| m in keys && forall k :: k in keys && k != m ==> LexLess(m, k);
    m
  }

  /** The order in which a range scan over the whole namespace returns the keys of `keys`. */
  ghost function ScanOrder(keys: set<string>): (r: seq<string>)
    ensures forall k :: k in r <==> k in keys
    ensures Ascending(r)
    decreases |keys|
  {
    if keys == {} then []
    else
      var m := LeastKey(keys);
      [m] + ScanOrder(keys - {m})
  }

  /** Two ascending sequences with the same keys are the same sequence: scan order is unique. */
  lemma {:induction false} AscendingUnique(a: seq<string>, b: seq<string>)
    requires Ascending(a) && Ascending(b)
    requires forall k :: k in a <==> k in b
    ensures a == b
    decreases |a|
  {
    assert |b| > 0 ==> b[0] in a;
    if |a| > 0 {
      assert a[0] in b;
      assert b[0] in a;
      if a[0] != b[0] {
        var i :| 0 <= i < |a| && a[i] == b[0];
        var j :| 0 <= j < |b| && b[j] == a[0];
        assert LexLess(a[0], a[i]) && LexLess(b[0], b[j]);
        LexTransitive(a[0], b[0], a[0]);
        LexIrreflexive(a[0]);
      }
      forall k
        ensures k in a[1..] <==> k in b[1..]
      {
        if k in a[1..] {
          var i :| 1 <= i < |a| && a[i] == k;
          assert LexLess(a[0], k);
          LexIrreflexive(k);
          assert k in b && k != b[0];
        }
        if k in b[1..] {
          var j :| 1 <= j < |b| && b[j] == k;
          assert LexLess(b[0], k);
          LexIrreflexive(k);
          assert k in a && k != a[0];
        }
      }
      AscendingUnique(a[1..], b[1..]);
    }
  }

  /** The keys of `scan` that satisfy `p`, in the order of `scan`: what a filtering scan keeps. */
  function Keep(scan: seq<string>, p: string -> bool): (r: seq<string>)
    ensures forall k :: k in r <==> k in scan && p(k)
    decreases |scan|
  {
    if scan == [] then []
    else Keep(scan[..|scan| - 1], p) + (if p(scan[|scan| - 1]) then [scan[|scan| - 1]] else [])
  }

  /** A filtering scan over keys in ascending order keeps them in ascending order. */
  lemma {:induction false} KeepAscending(scan: seq<string>, p: string -> bool)
    requires Ascending(scan)
    ensures Ascending(Keep(scan, p))
    decreases |scan|
  {
    if scan != [] {
      var n := |scan| - 1;
      var front := scan[..n];
      assert Ascending(front);
      KeepAscending(front, p);
      var kept := Keep(front, p);
      forall a | 0 <= a < |kept|
        ensures LexLess(kept[a], scan[n])
      {
        assert kept[a] in kept;
        var j :| 0 <= j < n && front[j] == kept[a];
      }
    }
  }

  /** The least key of a non-empty set in scan order. */
  method Least(keys: set<string>) returns (m: string)
    requires keys != {}
    ensures m in keys
    ensures forall k :: k in keys && k != m ==> LexLess(m, k)
  {
    m :| m in keys;
    var rest := keys - {m};
    while rest != {}
      invariant m in keys && rest <= keys && m !in rest
      invariant forall k :: k in keys - rest && k != m ==> LexLess(m, k)
      decreases |rest|
    {
      var x :| x in rest;
      LexTotal(x, m);
      if LexLess(x, m) {
        forall k | k in keys - rest && k != x
          ensures LexLess(x, k)
        {
          if k != m {
            LexTransitive(x, m, k);
          }
        }
        m := x;
      }
      rest := rest - {x};
    }
  }

  /** The keys of a range scan over the whole namespace: every key once, in ascending order. */
  method SortedKeys(keys: set<string>) returns (r: seq<string>)
    ensures forall k :: k in r <==> k in keys
    ensures Ascending(r)
    ensures r == ScanOrder(keys)
  {
    r := [];
    var rest := keys;
    while rest != {}
      invariant rest <= keys
      invariant forall k :: k in keys <==> k in r || k in rest
      invariant forall i, j :: 0 <= i < j < |r| ==> LexLess(r[i], r[j])
      invariant forall i, k :: 0 <= i < |r| && k in rest ==> LexLess(r[i], k)
      decreases |rest|
    {
      var k := Least(rest);
      r := r + [k];
      rest := rest - {k};
    }
    AscendingUnique(r, ScanOrder(keys));
  }
}
