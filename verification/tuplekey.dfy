/** Data keys of a bound tenant: the FoundationDB tuple-layer packing of a single
    byte-string element under the tenant's subspace prefix, the byte order the store
    keeps keys in, and the key stripping `get_range` applies to what the store returns. */
module TupleKey {
  import opened Bytes

  /** Tuple-layer type code of a byte string. */
  const BytesCode: byte := 0x01
  /** Terminator of a byte-string element, and the byte that needs escaping inside one. */
  const Nul: byte := 0x00
  /** The byte written after an escaped `Nul`. */
  const EscapeMark: byte := 0xFF

  /** The body of a packed byte string: every `0x00` becomes `0x00 0xFF`. */
  function Escape(k: Bytes): Bytes
    decreases |k|
  {
    if |k| == 0 then []
    else (if k[0] == Nul then [Nul, EscapeMark] else [k[0]]) + Escape(k[1..])
  }

  /** The inverse of `Escape`: `0x00 0xFF` becomes `0x00`. */
  function Unescape(e: Bytes): Bytes
    decreases |e|
  {
    if |e| == 0 then []
    else if |e| >= 2 && e[0] == Nul && e[1] == EscapeMark then [Nul] + Unescape(e[2..])
    else [e[0]] + Unescape(e[1..])
  }

  /** `s.Pack(tuple.Tuple{k})` for a subspace with prefix `prefix` and a byte-string key `k`. */
  function Pack(prefix: Bytes, k: Bytes): (key: Bytes)
    ensures |key| == |prefix| + |Escape(k)| + 2
    ensures key[..|prefix|] == prefix && key[|prefix|] == BytesCode && key[|key| - 1] == Nul
    ensures key[|prefix| + 1..|key| - 1] == Escape(k)
  {
    prefix + [BytesCode] + Escape(k) + [Nul]
  }

  /** Escaping loses nothing: unescaping recovers the key. */
  lemma {:induction false} UnescapeEscape(k: Bytes)
    ensures Unescape(Escape(k)) == k
    decreases |k|
  {
    if |k| > 0 {
      var rest := Escape(k[1..]);
      UnescapeEscape(k[1..]);
      if k[0] == Nul {
        assert Escape(k) == [Nul, EscapeMark] + rest;
        assert ([Nul, EscapeMark] + rest)[2..] == rest;
      } else {
        assert Escape(k) == [k[0]] + rest;
        assert ([k[0]] + rest)[1..] == rest;
      }
      assert k == [k[0]] + k[1..];
    }
  }

  /** Escaping never shortens a key, and lengthens every key holding a `0x00`. */
  lemma {:induction false} EscapeLength(k: Bytes)
    ensures |Escape(k)| >= |k|
    ensures Nul in k ==> |Escape(k)| > |k|
    decreases |k|
  {
    if |k| > 0 {
      EscapeLength(k[1..]);
      if k[0] != Nul {
        assert Nul in k ==> Nul in k[1..];
      }
    }
  }

  /** A key without a `0x00` byte is its own escape. */
  lemma {:induction false} EscapeFixesNulFree(k: Bytes)
    requires Nul !in k
    ensures Escape(k) == k
    decreases |k|
  {
    if |k| > 0 {
      assert Nul !in k[1..];
      EscapeFixesNulFree(k[1..]);
      assert k == [k[0]] + k[1..];
    }
  }

  /** Escaping is the identity on exactly the keys that hold no `0x00` byte. */
  lemma EscapeIsIdentityIff(k: Bytes)
    ensures Escape(k) == k <==> Nul !in k
  {
    EscapeLength(k);
    if Nul !in k {
      EscapeFixesNulFree(k);
    }
  }

  // ---------------------------------------------------------------------------
  // The store's key order

  /** Unsigned lexicographic order on byte strings, the order FoundationDB keeps keys in. */
  predicate LexLt(a: Bytes, b: Bytes)
    decreases |a|
  {
    |b| > 0 && (|a| == 0 || a[0] < b[0] || (a[0] == b[0] && LexLt(a[1..], b[1..])))
  }

  predicate LexLe(a: Bytes, b: Bytes) {
    a == b || LexLt(a, b)
  }

  /** Membership in the half-open key range `[begin, end)` of an `fdb.KeyRange`. */
  predicate InRange(x: Bytes, begin: Bytes, end: Bytes) {
    LexLe(begin, x) && LexLt(x, end)
  }

  /** A key lying between two keys that extend a common prefix `q` (the lower one
      strictly) extends `q` strictly as well. */
  lemma {:induction false} BetweenSharesPrefix(q: Bytes, s: Bytes, t: Bytes, x: Bytes)
    requires |s| > 0
    requires LexLe(q + s, x) && LexLt(x, q + t)
    ensures |x| > |q| && x[..|q|] == q
    decreases |q|
  {
    var lo, hi := q + s, q + t;
    if |q| == 0 {
      assert lo == s;
    } else {
      assert |x| > 0;
      assert lo[0] == q[0] && hi[0] == q[0];
      assert x[0] == q[0];
      assert lo[1..] == q[1..] + s;
      assert hi[1..] == q[1..] + t;
      assert LexLt(x[1..], hi[1..]);
      assert LexLe(lo[1..], x[1..]);
      BetweenSharesPrefix(q[1..], s, t, x[1..]);
      assert x[..|q|] == [x[0]] + x[1..][..|q| - 1];
      assert q == [q[0]] + q[1..];
    }
  }

  /** Every key the store can return for the range `[Pack(p, b), Pack(p, e))` starts
      with the prefix and the byte-string code and has room for the terminator, so
      the slice `get_range` takes of it is in bounds. */
  lemma RangeKeyInBounds(p: Bytes, b: Bytes, e: Bytes, x: Bytes)
    requires InRange(x, Pack(p, b), Pack(p, e))
    ensures |x| >= |p| + 2
    ensures x[..|p| + 1] == p + [BytesCode]
  {
    var q := p + [BytesCode];
    assert Pack(p, b) == q + (Escape(b) + [Nul]);
    assert Pack(p, e) == q + (Escape(e) + [Nul]);
    BetweenSharesPrefix(q, Escape(b) + [Nul], Escape(e) + [Nul], x);
  }

  /** Tenant isolation: a key inside the packed ranges of two subspaces forces one
      prefix to extend the other, so subspaces with prefix-free prefixes never see
      each other's keys. */
  lemma RangesMeetOnlyOnNestedPrefixes(p1: Bytes, b1: Bytes, e1: Bytes,
                                       p2: Bytes, b2: Bytes, e2: Bytes, x: Bytes)
    requires InRange(x, Pack(p1, b1), Pack(p1, e1))
    requires InRange(x, Pack(p2, b2), Pack(p2, e2))
    ensures p1 <= p2 || p2 <= p1
  {
    RangeKeyInBounds(p1, b1, e1, x);
    RangeKeyInBounds(p2, b2, e2, x);
    if |p1| <= |p2| {
      assert p1 == x[..|p1| + 1][..|p1|] == x[..|p1|];
      assert p2[..|p1|] == x[..|p2| + 1][..|p1|] == x[..|p1|];
    } else {
      assert p2 == x[..|p2| + 1][..|p2|] == x[..|p2|];
      assert p1[..|p2|] == x[..|p1| + 1][..|p2|] == x[..|p2|];
    }
  }

  /** A shared prefix does not affect the order. */
  lemma {:induction false} LexLtCommonPrefix(q: Bytes, u: Bytes, v: Bytes)
    ensures LexLt(q + u, q + v) <==> LexLt(u, v)
    decreases |q|
  {
    if |q| > 0 {
      assert (q + u)[1..] == q[1..] + u;
      assert (q + v)[1..] == q[1..] + v;
      LexLtCommonPrefix(q[1..], u, v);
    } else {
      assert q + u == u && q + v == v;
    }
  }

  /** The terminated escape of a key: the packed form after the type code. */
  function Framed(k: Bytes): Bytes {
    Escape(k) + [Nul]
  }

  /** Framing is order-preserving, in both directions. */
  lemma {:induction false} FramedOrder(a: Bytes, b: Bytes)
    ensures LexLt(a, b) <==> LexLt(Framed(a), Framed(b))
    decreases |a|
  {
    if |a| > 0 && |b| > 0 {
      var ea := if a[0] == Nul then [Nul, EscapeMark] else [a[0]];
      var eb := if b[0] == Nul then [Nul, EscapeMark] else [b[0]];
      assert Framed(a) == ea + Framed(a[1..]);
      assert Framed(b) == eb + Framed(b[1..]);
      if a[0] == b[0] {
        FramedOrder(a[1..], b[1..]);
        LexLtCommonPrefix(ea, Framed(a[1..]), Framed(b[1..]));
      }
    } else if |a| == 0 && |b| > 0 {
      var eb := if b[0] == Nul then [Nul, EscapeMark] else [b[0]];
      assert Framed(b) == eb + Framed(b[1..]);
      assert Framed(a) == [Nul];
      if b[0] == Nul {
        assert Framed(b)[1..] == [EscapeMark] + Framed(b[1..]);
      }
    } else if |a| > 0 {
      var ea := if a[0] == Nul then [Nul, EscapeMark] else [a[0]];
      assert Framed(a) == ea + Framed(a[1..]);
      assert Framed(b) == [Nul];
      if a[0] == Nul {
        assert Framed(a)[1..] == [EscapeMark] + Framed(a[1..]);
      }
    } else {
      assert Framed(a) == Framed(b) == [Nul];
    }
  }

  /** Packing under one prefix is order-preserving in both directions: the store's
      order on packed keys is the order of the application keys. */
  lemma PackOrder(p: Bytes, a: Bytes, b: Bytes)
    ensures LexLt(a, b) <==> LexLt(Pack(p, a), Pack(p, b))
  {
    var q := p + [BytesCode];
    assert Pack(p, a) == q + Framed(a);
    assert Pack(p, b) == q + Framed(b);
    LexLtCommonPrefix(q, Framed(a), Framed(b));
    FramedOrder(a, b);
  }

  // ---------------------------------------------------------------------------
  // Stripping returned keys

  /** The slice `v.Key[len(prefix)+1 : len(v.Key)-1]` of a returned key; Go panics
      unless the key is at least two bytes longer than the prefix. */
  function StripAsWritten(prefix: Bytes, key: Bytes): Bytes
    requires |prefix| + 2 <= |key|
  {
    key[|prefix| + 1 .. |key| - 1]
  }

  /** On a packed key the slice yields the escaped key, which is the key itself
      exactly when the key holds no `0x00` byte. */
  lemma StripPackIsEscape(p: Bytes, k: Bytes)
    ensures |p| + 2 <= |Pack(p, k)|
    ensures StripAsWritten(p, Pack(p, k)) == Escape(k)
    ensures StripAsWritten(p, Pack(p, k)) == k <==> Nul !in k
  {
    var key := Pack(p, k);
    assert key[|p| + 1 .. |key| - 1] == Escape(k);
    EscapeIsIdentityIff(k);
  }

  /** The key `[0x00]`, packed under the empty prefix, comes back from the slice as
      `[0x00, 0xFF]`: the slice does not give back the key that was written. */
  lemma StripKeepsEscapes()
    ensures StripAsWritten([], Pack([], [Nul])) == [Nul, EscapeMark]
    ensures StripAsWritten([], Pack([], [Nul])) != [Nul]
  {
    StripPackIsEscape([], [Nul]);
  }

  /** The key stripping `get_range` evidently intends: slice off the prefix, type code
      and terminator, then undo the escaping. */
  function DecodeKey(prefix: Bytes, key: Bytes): Bytes
    requires |prefix| + 2 <= |key|
  {
    Unescape(StripAsWritten(prefix, key))
  }

  /** Decoding a packed key gives back the application key exactly. */
  lemma DecodePack(p: Bytes, k: Bytes)
    ensures |p| + 2 <= |Pack(p, k)|
    ensures DecodeKey(p, Pack(p, k)) == k
  {
    StripPackIsEscape(p, k);
    UnescapeEscape(k);
  }
}
