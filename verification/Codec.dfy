/** The byte layout of database keys and values (crates/common). */
module Codec {
  import opened Types

  function Pow256(w: nat): (r: nat)
    ensures r > 0
  {
    if w == 0 then 1 else 256 * Pow256(w - 1)
  }

  /** The `w` big-endian bytes of `n`. */
  function ToBe(n: nat, w: nat): (b: Bytes)
    requires n < Pow256(w)
    ensures |b| == w && FromBe(b) == n
  {
    if w == 0 then []
    else
      var b := ToBe(n / 256, w - 1) + [n % 256];
      assert b[..w - 1] == ToBe(n / 256, w - 1);
      b
  }

  function FromBe(b: Bytes): (n: nat)
    ensures n < Pow256(|b|)
  {
    if b == [] then 0 else FromBe(b[..|b| - 1]) * 256 + b[|b| - 1]
  }

  lemma {:induction false} ToBeFromBe(b: Bytes)
    ensures ToBe(FromBe(b), |b|) == b
  {
    if b != [] {
      var n := FromBe(b);
      assert n / 256 == FromBe(b[..|b| - 1]) && n % 256 == b[|b| - 1];
      ToBeFromBe(b[..|b| - 1]);
      assert b == b[..|b| - 1] + [b[|b| - 1]];
    }
  }

  lemma Widths()
    ensures Pow256(8) == 0x1_0000_0000_0000_0000
    ensures Pow256(20) == 0x1_0000000000_0000000000_0000000000_0000000000
    ensures Pow256(32) == 0x1_0000000000000000_0000000000000000_0000000000000000_0000000000000000
  {
    assert Pow256(4) == 0x1_0000_0000;
    assert Pow256(8) == 0x1_0000_0000_0000_0000;
    assert Pow256(12) == 0x1_0000_0000_0000_0000_0000_0000;
    assert Pow256(16) == 0x1_0000_0000_0000_0000_0000_0000_0000_0000;
    assert Pow256(20) == 0x1_0000000000_0000000000_0000000000_0000000000;
    assert Pow256(24) == 0x1_0000_0000_0000_0000_0000_0000_0000_0000_0000_0000_0000_0000;
    assert Pow256(28) == 0x1_0000_0000_0000_0000_0000_0000_0000_0000_0000_0000_0000_0000_0000_0000;
  }

  // ---- fixed-width values ----

  datatype DecodeError = InvalidLength(expected: nat, got: nat)

  const HEAD_KEY: Bytes := [104, 101, 97, 100, 95, 98, 108, 111, 99, 107]  // b"head_block"

  function EncodeU64(n: U64): (b: Bytes)
    ensures |b| == 8 && DecodeU64(b) == n
  {
    Widths(); ToBe(n, 8)
  }

  function DecodeU64(b: Bytes): U64
    requires |b| == 8
  {
    Widths(); FromBe(b)
  }

  function EncodeWord(w: Word): (b: Bytes)
    ensures |b| == 32 && DecodeWord(b) == w
  {
    Widths(); ToBe(w, 32)
  }

  function DecodeWord(b: Bytes): Word
    requires |b| == 32
  {
    Widths(); FromBe(b)
  }

  function EncodeAddress(a: Address): (b: Bytes)
    ensures |b| == 20 && DecodeAddress(b) == a
  {
    Widths(); ToBe(a, 20)
  }

  function DecodeAddress(b: Bytes): Address
    requires |b| == 20
  {
    Widths(); FromBe(b)
  }

  // ---- keys.rs and account.rs ----

  function AccountKeyFromBytes(b: Bytes): Result<Address, DecodeError> {
    if |b| != 20 then Err(InvalidLength(20, |b|)) else Ok(DecodeAddress(b))
  }

  function EncodeStorageKey(key: (Address, Word)): (b: Bytes)
    ensures |b| == 52
  {
    EncodeAddress(key.0) + EncodeWord(key.1)
  }

  function StorageKeyFromBytes(b: Bytes): Result<(Address, Word), DecodeError> {
    if |b| != 52 then Err(InvalidLength(52, |b|))
    else Ok((DecodeAddress(b[..20]), DecodeWord(b[20..52])))
  }

  function EncodeInfo(info: AccountInfo): (b: Bytes)
    ensures |b| == 72
  {
    EncodeU64(info.nonce) + EncodeWord(info.balance) + EncodeWord(info.codeHash)
  }

  function InfoFromBytes(b: Bytes): Result<AccountInfo, DecodeError> {
    if |b| != 72 then Err(InvalidLength(72, |b|))
    else Ok(AccountInfo(DecodeU64(b[..8]), DecodeWord(b[8..40]), DecodeWord(b[40..72])))
  }

  /** Where the fields of an account are, each as a big-endian number. */
  lemma InfoLayout(info: AccountInfo)
    ensures var b := EncodeInfo(info);
      |b| == 72 && FromBe(b[..8]) == info.nonce && FromBe(b[8..40]) == info.balance && FromBe(b[40..]) == info.codeHash
  {
    var b := EncodeInfo(info);
    assert b[..8] == EncodeU64(info.nonce) && b[8..40] == EncodeWord(info.balance);
    assert b[40..] == EncodeWord(info.codeHash);
  }

  /** Copy `src` into `buf` from position `at`, as `copy_from_slice` does. */
  method CopyInto(buf: array<Byte>, at: nat, src: Bytes)
    requires at + |src| <= buf.Length
    modifies buf
    ensures buf[..] == old(buf[..at]) + src + old(buf[at + |src|..])
  {
    for i := 0 to |src|
      invariant buf[..at] == old(buf[..at])
      invariant buf[at..at + i] == src[..i]
      invariant buf[at + i..] == old(buf[at + i..])
    {
      buf[at + i] := src[i];
    }
    assert buf[..] == buf[..at] + buf[at..at + |src|] + buf[at + |src|..];
  }

  method StorageKeyToBytes(address: Address, slot: Word) returns (buf: array<Byte>)
    ensures fresh(buf) && buf[..] == EncodeStorageKey((address, slot))
  {
    buf := new Byte[52](_ => 0);
    CopyInto(buf, 0, EncodeAddress(address));
    CopyInto(buf, 20, EncodeWord(slot));
  }

  method InfoToBytes(info: AccountInfo) returns (buf: array<Byte>)
    ensures fresh(buf) && buf[..] == EncodeInfo(info)
  {
    buf := new Byte[72](_ => 0);
    CopyInto(buf, 0, EncodeU64(info.nonce));
    CopyInto(buf, 8, EncodeWord(info.balance));
    CopyInto(buf, 40, EncodeWord(info.codeHash));
  }

  // ---- round trips ----

  lemma AddressOfBytes(b: Bytes)
    requires |b| == 20
    ensures EncodeAddress(DecodeAddress(b)) == b
  {
    ToBeFromBe(b);
  }

  lemma WordOfBytes(b: Bytes)
    requires |b| == 32
    ensures EncodeWord(DecodeWord(b)) == b
  {
    ToBeFromBe(b);
  }

  lemma U64OfBytes(b: Bytes)
    requires |b| == 8
    ensures EncodeU64(DecodeU64(b)) == b
  {
    ToBeFromBe(b);
  }

  lemma AccountKeyRoundTrip(a: Address, b: Bytes)
    ensures AccountKeyFromBytes(EncodeAddress(a)) == Ok(a)
    ensures AccountKeyFromBytes(b).Ok? <==> |b| == 20
    ensures |b| == 20 ==> EncodeAddress(AccountKeyFromBytes(b).value) == b
  {
    if |b| == 20 { AddressOfBytes(b); }
  }

  lemma StorageKeyEncodeDecode(key: (Address, Word))
    ensures StorageKeyFromBytes(EncodeStorageKey(key)) == Ok(key)
  {
    var e := EncodeStorageKey(key);
    assert e[..20] == EncodeAddress(key.0) && e[20..52] == EncodeWord(key.1);
  }

  lemma StorageKeyDecodeEncode(b: Bytes)
    requires |b| == 52
    ensures StorageKeyFromBytes(b).Ok? && EncodeStorageKey(StorageKeyFromBytes(b).value) == b
  {
    AddressOfBytes(b[..20]);
    WordOfBytes(b[20..52]);
    assert b == b[..20] + b[20..52];
  }

  /** Encoding then decoding gives the key back; decoding succeeds exactly on
      52 bytes and then encodes back to the same bytes. */
  lemma StorageKeyRoundTrip(key: (Address, Word), b: Bytes)
    ensures StorageKeyFromBytes(EncodeStorageKey(key)) == Ok(key)
    ensures StorageKeyFromBytes(b).Ok? <==> |b| == 52
    ensures |b| == 52 ==> EncodeStorageKey(StorageKeyFromBytes(b).value) == b
  {
    StorageKeyEncodeDecode(key);
    if |b| == 52 { StorageKeyDecodeEncode(b); }
  }

  lemma InfoEncodeDecode(info: AccountInfo)
    ensures InfoFromBytes(EncodeInfo(info)) == Ok(info)
  {
    var e := EncodeInfo(info);
    assert e[..8] == EncodeU64(info.nonce);
    assert e[8..40] == EncodeWord(info.balance);
    assert e[40..72] == EncodeWord(info.codeHash);
  }

  lemma InfoDecodeEncode(b: Bytes)
    requires |b| == 72
    ensures InfoFromBytes(b).Ok? && EncodeInfo(InfoFromBytes(b).value) == b
  {
    U64OfBytes(b[..8]);
    WordOfBytes(b[8..40]);
    WordOfBytes(b[40..72]);
    assert b == b[..8] + b[8..40] + b[40..72];
  }

  lemma InfoRoundTrip(info: AccountInfo, b: Bytes)
    ensures InfoFromBytes(EncodeInfo(info)) == Ok(info)
    ensures InfoFromBytes(b).Ok? <==> |b| == 72
    ensures |b| == 72 ==> EncodeInfo(InfoFromBytes(b).value) == b
  {
    InfoEncodeDecode(info);
    if |b| == 72 { InfoDecodeEncode(b); }
  }

  // ---- byte order is numeric order ----

  /** The bytewise order of the store's iterators. */
  predicate LexLess(a: Bytes, b: Bytes) {
    b != [] && (a == [] || a[0] < b[0] || (a[0] == b[0] && LexLess(a[1..], b[1..])))
  }

  lemma ShiftDigit(x: nat, p: nat, t: nat, l: nat)
    ensures (x * p + t) * 256 + l == x * (256 * p) + (t * 256 + l)
  {
    assert x * p * 256 == x * (256 * p);
  }

  lemma {:induction false} FromBeHead(b: Bytes)
    requires b != []
    ensures FromBe(b) == b[0] * Pow256(|b| - 1) + FromBe(b[1..])
  {
    if |b| > 1 {
      var init, tail := b[..|b| - 1], b[1..];
      FromBeHead(init);
      assert init[1..] == tail[..|tail| - 1] && tail[|tail| - 1] == b[|b| - 1];
      ShiftDigit(b[0], Pow256(|init| - 1), FromBe(init[1..]), b[|b| - 1]);
    }
  }

  /** A larger leading digit outweighs any tail below `p`. */
  lemma LeadingDigit(x: nat, y: nat, p: nat, s: nat, t: nat)
    requires x < y && s < p && t < p
    ensures x * p + s < y * p + t
  {
    assert (x + 1) * p <= y * p;
  }

  /** On strings of one width, bytewise order is numeric order. */
  lemma {:induction false} LexIsNumeric(a: Bytes, b: Bytes)
    requires |a| == |b|
    ensures LexLess(a, b) <==> FromBe(a) < FromBe(b)
  {
    if a != [] {
      FromBeHead(a);
      FromBeHead(b);
      LexIsNumeric(a[1..], b[1..]);
      var p, s, t := Pow256(|a| - 1), FromBe(a[1..]), FromBe(b[1..]);
      if a[0] < b[0] {
        LeadingDigit(a[0], b[0], p, s, t);
      } else if b[0] < a[0] {
        LeadingDigit(b[0], a[0], p, t, s);
      }
    }
  }

  lemma {:induction false} LexConcat(a: Bytes, b: Bytes, c: Bytes, d: Bytes)
    requires |a| == |b|
    ensures LexLess(a + c, b + d) <==> LexLess(a, b) || (a == b && LexLess(c, d))
  {
    if a == [] {
      assert a + c == c && b + d == d;
    } else {
      assert (a + c)[1..] == a[1..] + c && (b + d)[1..] == b[1..] + d;
      LexConcat(a[1..], b[1..], c, d);
      assert a == [a[0]] + a[1..] && b == [b[0]] + b[1..];
    }
  }

  /** Storage keys sort by address and, within one address, by slot. */
  lemma StorageKeyOrder(k: (Address, Word), l: (Address, Word))
    ensures LexLess(EncodeStorageKey(k), EncodeStorageKey(l)) <==> k.0 < l.0 || (k.0 == l.0 && k.1 < l.1)
  {
    LexConcat(EncodeAddress(k.0), EncodeAddress(l.0), EncodeWord(k.1), EncodeWord(l.1));
    LexIsNumeric(EncodeAddress(k.0), EncodeAddress(l.0));
    LexIsNumeric(EncodeWord(k.1), EncodeWord(l.1));
  }

  lemma {:induction false} LexTotal(a: Bytes, b: Bytes)
    ensures a == b || LexLess(a, b) || LexLess(b, a)
    ensures !(LexLess(a, b) && LexLess(b, a)) && !LexLess(a, a)
  {
    if a != [] && b != [] {
      LexTotal(a[1..], b[1..]);
      assert a == [a[0]] + a[1..] && b == [b[0]] + b[1..];
    }
    if a != [] { LexIrreflexive(a); }
  }

  lemma {:induction false} LexIrreflexive(a: Bytes)
    ensures !LexLess(a, a)
  {
    if a != [] { LexIrreflexive(a[1..]); }
  }

  lemma {:induction false} LexTransitive(a: Bytes, b: Bytes, c: Bytes)
    requires LexLess(a, b) && LexLess(b, c)
    ensures LexLess(a, c)
  {
    if a != [] && a[0] == b[0] && b[0] == c[0] {
      LexTransitive(a[1..], b[1..], c[1..]);
    }
  }
}
