/** Byte strings, fixed-width big-endian integers and length-prefixed fields:
    the vocabulary every wire layout of the core is written in. */
module Bytes {

  type byte = x: int | 0 <= x < 256
  type Blob = seq<byte>

  datatype Option<+T> = None | Some(value: T)

  /** `CoreError::Malformed` without its message text. */
  datatype Result<+T> = Ok(value: T) | Malformed {
    predicate IsFailure() { Malformed? }
    function PropagateFailure<U>(): Result<U> requires Malformed? { Malformed }
    function Extract(): T requires Ok? { value }
  }

  /** One parsing step: what was read, and the bytes left over. */
  datatype Parsed<+T> = Parsed(value: T, rest: Blob) | Truncated {
    predicate IsFailure() { Truncated? }
    function PropagateFailure<U>(): Parsed<U> requires Truncated? { Truncated }
    function Extract(): (T, Blob) requires Parsed? { (value, rest) }
  }

  function Pow256(w: nat): (p: nat)
    ensures p >= 1
  {
    if w == 0 then 1 else 256 * Pow256(w - 1)
  }

  lemma Widths()
    ensures Pow256(1) == 256
    ensures Pow256(2) == 0x1_0000
    ensures Pow256(4) == 0x1_0000_0000
    ensures Pow256(8) == 0x1_0000_0000_0000_0000
  {
    assert Pow256(2) == 256 * Pow256(1);
    assert Pow256(3) == 256 * Pow256(2);
    assert Pow256(4) == 256 * Pow256(3);
    assert Pow256(5) == 256 * Pow256(4);
    assert Pow256(6) == 256 * Pow256(5);
    assert Pow256(7) == 256 * Pow256(6);
    assert Pow256(8) == 256 * Pow256(7);
  }

  type u16 = x: int | 0 <= x < 0x1_0000
  type u32 = x: int | 0 <= x < 0x1_0000_0000
  type u64 = x: int | 0 <= x < 0x1_0000_0000_0000_0000

  /** The base-256 digit of weight 256^k. */
  function Digit(n: nat, k: nat): byte {
    if k == 0 then n % 256 else Digit(n / 256, k - 1)
  }

  /** `n.to_be_bytes()` at width `w`; a value too wide loses its high bytes. */
  function BigEndian(n: nat, w: nat): (s: Blob)
    ensures |s| == w
  {
    seq(w, i requires 0 <= i < w => Digit(n, w - 1 - i))
  }

  /** The number the first `k` bytes spell. */
  function Value(s: Blob, k: nat): (n: nat)
    requires k <= |s|
    ensures n < Pow256(k)
  {
    if k == 0 then 0 else Value(s, k - 1) * 256 + s[k - 1]
  }

  /** `from_be_bytes`. */
  function FromBigEndian(s: Blob): (n: nat)
    ensures n < Pow256(|s|)
  {
    Value(s, |s|)
  }

  lemma {:induction false} PrefixValue(n: nat, w: nat, k: nat)
    requires k < w
    ensures Value(BigEndian(n, w), k) == Value(BigEndian(n / 256, w - 1), k)
    decreases k
  {
    if k == 0 {
    } else {
      PrefixValue(n, w, k - 1);
      assert Digit(n, w - k) == Digit(n / 256, w - 1 - k);
      assert BigEndian(n, w)[k - 1] == BigEndian(n / 256, w - 1)[k - 1];
    }
  }

  lemma {:induction false} BigEndianReads(n: nat, w: nat)
    requires n < Pow256(w)
    ensures FromBigEndian(BigEndian(n, w)) == n
    decreases w
  {
    if w == 0 {
    } else {
      PrefixValue(n, w, w - 1);
      assert Digit(n, w - 1 - (w - 1)) == n % 256;
      assert BigEndian(n, w)[w - 1] == n % 256;
      BigEndianReads(n / 256, w - 1);
    }
  }

  lemma {:induction false} ValueDigit(s: Blob, k: nat, i: nat)
    requires i < k <= |s|
    ensures Digit(Value(s, k), k - 1 - i) == s[i]
    decreases k
  {
    if i == k - 1 {
    } else {
      ValueDigit(s, k - 1, i);
    }
  }

  lemma BigEndianWrites(s: Blob)
    ensures BigEndian(FromBigEndian(s), |s|) == s
  {
    forall i | 0 <= i < |s| ensures BigEndian(FromBigEndian(s), |s|)[i] == s[i] {
      ValueDigit(s, |s|, i);
    }
  }

  /** A fixed-width integer can be cancelled off the front of two equal strings. */
  lemma IntCancels(x: nat, s: Blob, y: nat, t: Blob, w: nat)
    requires x < Pow256(w) && y < Pow256(w)
    requires BigEndian(x, w) + s == BigEndian(y, w) + t
    ensures x == y && s == t
  {
    var left, right := BigEndian(x, w) + s, BigEndian(y, w) + t;
    assert BigEndian(x, w) == left[..w] == right[..w] == BigEndian(y, w);
    assert s == left[w..] == right[w..] == t;
    BigEndianReads(x, w);
    BigEndianReads(y, w);
  }

  /** Most significant byte first, byte by byte. */
  lemma BigEndianSpelled(n: nat)
    ensures BigEndian(n, 2) == [n / 256 % 256, n % 256]
    ensures BigEndian(n, 4) == [n / 16777216 % 256, n / 65536 % 256, n / 256 % 256, n % 256]
    ensures BigEndian(n, 8) == BigEndian(n / 4294967296, 4) + BigEndian(n, 4)
  {
    LowDigits(n);
    assert forall i :: 0 <= i < 2 ==> BigEndian(n, 2)[i] == Digit(n, 1 - i);
    assert forall i :: 0 <= i < 4 ==> BigEndian(n, 4)[i] == Digit(n, 3 - i);
    var high := n / 4294967296;
    forall i | 0 <= i < 8 ensures BigEndian(n, 8)[i] == (BigEndian(high, 4) + BigEndian(n, 4))[i] {
      if i < 4 { HighDigit(n, 3 - i); }
    }
  }

  lemma LowDigits(n: nat)
    ensures Digit(n, 0) == n % 256 && Digit(n, 1) == n / 256 % 256
    ensures Digit(n, 2) == n / 65536 % 256 && Digit(n, 3) == n / 16777216 % 256
  {
    var n1 := n / 256;
    var n2 := n1 / 256;
    var n3 := n2 / 256;
    assert n2 == n / 65536 && n3 == n / 16777216;
    assert Digit(n, 1) == Digit(n1, 0);
    assert Digit(n, 2) == Digit(n1, 1) == Digit(n2, 0);
    assert Digit(n, 3) == Digit(n1, 2) == Digit(n2, 1) == Digit(n3, 0);
  }

  lemma HighDigit(n: nat, k: nat)
    ensures Digit(n, k + 4) == Digit(n / 4294967296, k)
  {
    var n1 := n / 256;
    var n2 := n1 / 256;
    var n3 := n2 / 256;
    var n4 := n3 / 256;
    assert n4 == n / 4294967296;
    assert Digit(n, k + 4) == Digit(n1, k + 3) == Digit(n2, k + 2) == Digit(n3, k + 1) == Digit(n4, k);
  }

  /** A byte field behind its own length, the length written in `w` bytes. */
  function Framed(b: Blob, w: nat): (s: Blob)
    ensures |s| == w + |b|
  {
    BigEndian(|b|, w) + b
  }

  /** `field` stands in `s` at `offset`. */
  predicate At(s: Blob, offset: nat, field: Blob) {
    offset + |field| <= |s| && s[offset..offset + |field|] == field
  }

  lemma AtFront(field: Blob, rest: Blob)
    ensures At(field + rest, 0, field) && At(field + rest, |field|, rest)
  {
    assert (field + rest)[|field|..|field| + |rest|] == rest;
  }

  /** What stands in a part stands in the whole. */
  lemma AtWithin(s: Blob, from: nat, part: Blob, offset: nat, field: Blob)
    requires At(s, from, part) && At(part, offset, field)
    ensures At(s, from + offset, field)
  {
    forall i | 0 <= i < |field| ensures s[from + offset + i] == field[i] {
      assert s[from + offset + i] == s[from..from + |part|][offset + i] == part[offset + i];
      assert part[offset + i] == part[offset..offset + |field|][i];
    }
  }

  lemma FramedAt(field: Blob, w: nat, rest: Blob)
    ensures At(Framed(field, w) + rest, 0, BigEndian(|field|, w))
    ensures At(Framed(field, w) + rest, w, field) && At(Framed(field, w) + rest, w + |field|, rest)
  {
    var s := Framed(field, w) + rest;
    assert s[0..w] == BigEndian(|field|, w);
    assert s[w..w + |field|] == field;
    assert s[w + |field|..w + |field| + |rest|] == rest;
  }

  /** A framed field at `offset` of a whole: its length, itself, and what follows. */
  lemma FramedAtWithin(s: Blob, offset: nat, field: Blob, w: nat, rest: Blob)
    requires At(s, offset, Framed(field, w) + rest)
    ensures At(s, offset, BigEndian(|field|, w)) && At(s, offset + w, field) && At(s, offset + w + |field|, rest)
  {
    hide At, BigEndian;
    var part := Framed(field, w) + rest;
    FramedAt(field, w, rest);
    AtWithin(s, offset, part, 0, BigEndian(|field|, w));
    AtWithin(s, offset, part, w, field);
    AtWithin(s, offset, part, w + |field|, rest);
  }

  lemma FieldAtWithin(s: Blob, offset: nat, field: Blob, rest: Blob)
    requires At(s, offset, field + rest)
    ensures At(s, offset, field) && At(s, offset + |field|, rest)
  {
    hide At;
    AtFront(field, rest);
    AtWithin(s, offset, field + rest, 0, field);
    AtWithin(s, offset, field + rest, |field|, rest);
  }

  lemma AtWhole(s: Blob)
    ensures At(s, 0, s)
  {
  }

  /** Pushing a field and then the rest is pushing the two together. */
  lemma Pushed(out: Blob, field: Blob, rest: Blob)
    ensures (out + field) + rest == out + (field + rest)
  {
  }

  /** And so for five fields pushed in a row. */
  lemma PushedFive(a: Blob, b: Blob, x: Blob, y: Blob, z: Blob, rest: Blob)
    ensures (a + b + x + y + z) + rest == a + (b + (x + (y + (z + rest))))
  {
    Pushed(a + b + x + y, z, rest);
    Pushed(a + b + x, y, z + rest);
    Pushed(a + b, x, y + (z + rest));
    Pushed(a, b, x + (y + (z + rest)));
  }

  /** A length-prefixed field can be cancelled off the front of two equal strings. */
  lemma FrameCancels(a: Blob, s: Blob, b: Blob, t: Blob, w: nat)
    requires |a| < Pow256(w) && |b| < Pow256(w)
    requires Framed(a, w) + s == Framed(b, w) + t
    ensures a == b && s == t
  {
    assert Framed(a, w) + s == BigEndian(|a|, w) + (a + s);
    assert Framed(b, w) + t == BigEndian(|b|, w) + (b + t);
    IntCancels(|a|, a + s, |b|, b + t, w);
    assert a == (a + s)[..|a|] == (b + t)[..|b|] == b;
    assert s == (a + s)[|a|..] == (b + t)[|b|..] == t;
  }

  /** Read a `w`-byte integer off the front. */
  function ReadInt(s: Blob, w: nat): (r: Parsed<nat>)
    ensures r.Parsed? ==> r.value < Pow256(w) && |r.rest| + w == |s|
  {
    if |s| < w then Truncated else Parsed(FromBigEndian(s[..w]), s[w..])
  }

  /** Read a field framed by a `w`-byte length. */
  function ReadFrame(s: Blob, w: nat): (r: Parsed<Blob>)
    ensures r.Parsed? ==> |r.value| < Pow256(w) && |r.rest| + w + |r.value| == |s|
  {
    var n := ReadInt(s, w);
    if n.Truncated? || |n.rest| < n.value then Truncated
    else Parsed(n.rest[..n.value], n.rest[n.value..])
  }

  /** Reading what was written returns it, and what was read was written there. */
  lemma ReadIntInverts(s: Blob, w: nat, n: nat, rest: Blob)
    requires n < Pow256(w)
    ensures ReadInt(s, w) == Parsed(n, rest) <==> s == BigEndian(n, w) + rest
  {
    if s == BigEndian(n, w) + rest {
      assert s[..w] == BigEndian(n, w) && s[w..] == rest;
      BigEndianReads(n, w);
    }
    if ReadInt(s, w) == Parsed(n, rest) {
      BigEndianWrites(s[..w]);
      assert s == s[..w] + s[w..];
    }
  }

  lemma ReadFrameInverts(s: Blob, w: nat, b: Blob, rest: Blob)
    requires |b| < Pow256(w)
    ensures ReadFrame(s, w) == Parsed(b, rest) <==> s == Framed(b, w) + rest
  {
    assert Framed(b, w) + rest == BigEndian(|b|, w) + (b + rest);
    ReadIntInverts(s, w, |b|, b + rest);
    if s == Framed(b, w) + rest {
      assert (b + rest)[..|b|] == b && (b + rest)[|b|..] == rest;
    }
    if ReadFrame(s, w) == Parsed(b, rest) {
      var n := ReadInt(s, w);
      assert n.rest == b + rest;
    }
  }

  /** `n` items read one after another. */
  function ReadList<T>(read: Blob -> Parsed<T>, s: Blob, n: nat): (p: Parsed<seq<T>>)
    ensures p.Parsed? ==> |p.value| == n
    decreases n
  {
    if n == 0 then Parsed([], s)
    else
      var (x, s1) :- read(s);
      var (xs, s2) :- ReadList(read, s1, n - 1);
      Parsed([x] + xs, s2)
  }

  /** Items written one after another, each followed by the rest. */
  function WriteList<T>(write: (T, Blob) -> Blob, xs: seq<T>, tail: Blob): Blob {
    if xs == [] then tail else write(xs[0], WriteList(write, xs[1..], tail))
  }

  ghost predicate ReadsBack<T(!new)>(read: Blob -> Parsed<T>, write: (T, Blob) -> Blob, ok: T -> bool) {
    forall x, rest :: ok(x) ==> read(write(x, rest)) == Parsed(x, rest)
  }

  ghost predicate ReadsOnlyWritten<T>(read: Blob -> Parsed<T>, write: (T, Blob) -> Blob, ok: T -> bool) {
    forall s :: read(s).Parsed? ==> ok(read(s).value) && s == write(read(s).value, read(s).rest)
  }

  lemma {:induction false} ListReadsBack<T(!new)>(
      read: Blob -> Parsed<T>, write: (T, Blob) -> Blob, ok: T -> bool, xs: seq<T>, rest: Blob)
    requires ReadsBack(read, write, ok)
    requires forall i :: 0 <= i < |xs| ==> ok(xs[i])
    ensures ReadList(read, WriteList(write, xs, rest), |xs|) == Parsed(xs, rest)
  {
    if xs == [] {
    } else {
      ListReadsBack(read, write, ok, xs[1..], rest);
      assert xs == [xs[0]] + xs[1..];
    }
  }

  lemma {:induction false} ListReadsOnlyWritten<T>(
      read: Blob -> Parsed<T>, write: (T, Blob) -> Blob, ok: T -> bool, s: Blob, n: nat)
    requires ReadsOnlyWritten(read, write, ok)
    requires ReadList(read, s, n).Parsed?
    ensures var p := ReadList(read, s, n);
            s == WriteList(write, p.value, p.rest) && forall i :: 0 <= i < |p.value| ==> ok(p.value[i])
    decreases n
  {
    if n == 0 {
    } else {
      var p := read(s);
      var q := ReadList(read, p.rest, n - 1);
      ListReadsOnlyWritten(read, write, ok, p.rest, n - 1);
      assert ([p.value] + q.value)[1..] == q.value;
    }
  }

  /** The bytes of an ASCII context string. */
  function Ascii(s: string): (b: Blob)
    ensures |b| == |s|
    ensures forall i :: 0 <= i < |s| ==> b[i] == s[i] as int % 256
  {
    seq(|s|, i requires 0 <= i < |s| => s[i] as int % 256)
  }
}
