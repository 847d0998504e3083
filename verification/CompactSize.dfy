/** Sizes in front of lists, and a partial Merkle tree as bytes (src/utils/serialize.h,
    src/chain/merkleblock.h): reading takes back what was written, and accepts nothing else. */
module CompactSize {
  import opened Common

  type Byte = b: int | 0 <= b < 256 witness 0

  type Bytes = seq<Byte>

  /** What a read leaves of the stream. None stands for the exception of a stream that ends, a size
      that is not in its shortest form, or one that is too large. */
  datatype Got<T> = Got(value: T, rest: Bytes)

  // ----- numbers

  /** `k` bytes, the lowest first. */
  function Little(n: nat, k: nat): (r: Bytes)
    ensures |r| == k
  {
    if k == 0 then [] else [n % 256] + Little(n / 256, k - 1)
  }

  function Value(s: Bytes): nat {
    if s == [] then 0 else s[0] + 256 * Value(s[1..])
  }

  function Pow256(k: nat): nat {
    if k == 0 then 1 else 256 * Pow256(k - 1)
  }

  lemma {:induction false} ValueOfLittle(n: nat, k: nat)
    requires n < Pow256(k)
    ensures Value(Little(n, k)) == n
  {
    if k > 0 {
      ValueOfLittle(n / 256, k - 1);
      assert Little(n, k)[1..] == Little(n / 256, k - 1);
    }
  }

  lemma {:induction false} LittleOfValue(s: Bytes)
    ensures Little(Value(s), |s|) == s && Value(s) < Pow256(|s|)
  {
    if s != [] {
      LittleOfValue(s[1..]);
      assert Value(s) % 256 == s[0] && Value(s) / 256 == Value(s[1..]);
    }
  }

  lemma Widths()
    ensures Pow256(1) == 0x100 && Pow256(2) == 0x1_0000
    ensures Pow256(4) == 0x1_0000_0000 && Pow256(8) == 0x1_0000_0000_0000_0000
  {
    assert Pow256(3) == 0x100_0000 && Pow256(6) == 0x1_0000_0000_0000;
  }

  /** Reads `k` bytes. */
  function Take(s: Bytes, k: nat): Option<Got<Bytes>> {
    if |s| < k then None else Some(Got(s[..k], s[k..]))
  }

  lemma TakeWritten(part: Bytes, rest: Bytes)
    ensures Take(part + rest, |part|) == Some(Got(part, rest))
  {
    assert (part + rest)[..|part|] == part && (part + rest)[|part|..] == rest;
  }

  lemma TakeIs(s: Bytes, k: nat)
    requires Take(s, k).Some?
    ensures var Got(part, rest) := Take(s, k).value; |part| == k && s == part + rest
  {
    assert s == s[..k] + s[k..];
  }

  // ----- sizes

  /** GetSizeOfCompactSize. */
  function SizeOf(n: nat): nat {
    if n < 253 then 1 else if n <= 0xffff then 3 else if n <= 0xffff_ffff then 5 else 9
  }

  /** WriteCompactSize. */
  function WriteSize(n: nat): Bytes {
    if n < 253 then [n]
    else if n <= 0xffff then [253] + Little(n, 2)
    else if n <= 0xffff_ffff then [254] + Little(n, 4)
    else [255] + Little(n, 8)
  }

  function Checked(got: Option<Got<Bytes>>, least: nat, most: nat): Option<Got<nat>> {
    match got
    case None => None
    case Some(Got(s, rest)) => if least <= Value(s) <= most then Some(Got(Value(s), rest)) else None
  }

  /** ReadCompactSize, for sizes up to `most`. */
  function ReadSize(s: Bytes, most: nat): Option<Got<nat>> {
    if s == [] then None
    else if s[0] < 253 then Checked(Take(s, 1), 0, most)
    else if s[0] == 253 then Checked(Take(s[1..], 2), 253, most)
    else if s[0] == 254 then Checked(Take(s[1..], 4), 0x1_0000, most)
    else Checked(Take(s[1..], 8), 0x1_0000_0000, most)
  }

  /** As many bytes are written as are counted. */
  lemma WrittenSize(n: nat)
    ensures |WriteSize(n)| == SizeOf(n)
  {
  }

  /** What was written is read back. */
  lemma ReadWritten(n: nat, rest: Bytes, most: nat)
    requires n <= most && n < 0x1_0000_0000_0000_0000
    ensures ReadSize(WriteSize(n) + rest, most) == Some(Got(n, rest))
  {
    hide Little, Value, Take;
    Widths();
    var k := SizeOf(n) - 1;
    if k == 0 {
      TakeWritten([n], rest);
      OneByte(n);
    } else {
      ValueOfLittle(n, k);
      TakeWritten(Little(n, k), rest);
      assert (WriteSize(n) + rest)[1..] == Little(n, k) + rest;
    }
  }

  lemma OneByte(b: Byte)
    ensures Value([b]) == b && Little(b, 1) == [b]
  {
    assert [b][1..] == [] && Little(b, 1) == [b % 256] + Little(b / 256, 0);
  }

  /** A size has one form only: whatever is read was written so. */
  lemma ReadIsWritten(s: Bytes, most: nat)
    requires ReadSize(s, most).Some?
    ensures var got := ReadSize(s, most).value;
            s == WriteSize(got.value) + got.rest && got.value <= most && got.value < 0x1_0000_0000_0000_0000
  {
    hide Little, Value;
    Widths();
    var k := if s[0] < 253 then 0 else if s[0] == 253 then 2 else if s[0] == 254 then 4 else 8;
    if k == 0 {
      OneByte(s[0]);
      assert s[..1] == [s[0]];
    } else {
      LittleOfValue(s[1..][..k]);
      assert s == [s[0]] + s[1..][..k] + s[1..][k..];
    }
  }

  // ----- lists and trees

  /** A list of numbers of `k` bytes each. */
  function WriteAll(xs: seq<nat>, k: nat): Bytes {
    if xs == [] then [] else Little(xs[0], k) + WriteAll(xs[1..], k)
  }

  function ReadAll(s: Bytes, count: nat, k: nat): Option<Got<seq<nat>>> {
    if count == 0 then Some(Got([], s))
    else
      match Take(s, k)
      case None => None
      case Some(Got(x, rest)) =>
        match ReadAll(rest, count - 1, k)
        case None => None
        case Some(Got(xs, rest')) => Some(Got([Value(x)] + xs, rest'))
  }

  lemma {:induction false} AllWritten(xs: seq<nat>, k: nat)
    ensures |WriteAll(xs, k)| == |xs| * k
  {
    if xs != [] {
      AllWritten(xs[1..], k);
    }
  }

  predicate Fit(xs: seq<nat>, k: nat) {
    forall i :: 0 <= i < |xs| ==> xs[i] < Pow256(k)
  }

  lemma {:induction false} AllRead(xs: seq<nat>, k: nat, rest: Bytes)
    requires Fit(xs, k)
    ensures ReadAll(WriteAll(xs, k) + rest, |xs|, k) == Some(Got(xs, rest))
  {
    hide Little, Value, Take, Pow256;
    if xs == [] {
      assert WriteAll(xs, k) + rest == rest;
    } else {
      var first, more := Little(xs[0], k), WriteAll(xs[1..], k) + rest;
      ValueOfLittle(xs[0], k);
      TakeWritten(first, more);
      AllRead(xs[1..], k, rest);
      assert WriteAll(xs, k) + rest == first + more;
      assert [xs[0]] + xs[1..] == xs;
    }
  }

  lemma {:induction false} AllIsWritten(s: Bytes, count: nat, k: nat)
    requires ReadAll(s, count, k).Some?
    ensures var got := ReadAll(s, count, k).value;
            s == WriteAll(got.value, k) + got.rest && |got.value| == count && Fit(got.value, k)
    decreases count
  {
    hide Little, Value, Pow256, Take;
    if count > 0 {
      TakeIs(s, k);
      var Got(x, rest) := Take(s, k).value;
      AllIsWritten(rest, count - 1, k);
      LittleOfValue(x);
      var got := ReadAll(rest, count - 1, k).value;
      assert ([Value(x)] + got.value)[1..] == got.value;
      assert s == x + (WriteAll(got.value, k) + got.rest);
    }
  }

  /** What is sent of a partial Merkle tree. */
  datatype Sent = Sent(n: nat, hashes: seq<nat>, flags: Bytes)

  function WriteTree(t: Sent): Bytes {
    Little(t.n, 4) + WriteSize(|t.hashes|) + WriteAll(t.hashes, 32) + WriteSize(|t.flags|) + t.flags
  }

  function ReadTree(s: Bytes, most: nat): Option<Got<Sent>> {
    match Take(s, 4)
    case None => None
    case Some(Got(n, s1)) =>
      match ReadSize(s1, most)
      case None => None
      case Some(Got(count, s2)) =>
        match ReadAll(s2, count, 32)
        case None => None
        case Some(Got(hashes, s3)) =>
          match ReadSize(s3, most)
          case None => None
          case Some(Got(size, s4)) =>
            match Take(s4, size)
            case None => None
            case Some(Got(flags, rest)) => Some(Got(Sent(Value(n), hashes, flags), rest))
  }

  /** What can be sent and received: 32-bit number of txids, hashes of 32 bytes, and lists no longer
      than the limit. */
  predicate CanBeSent(t: Sent, most: nat) {
    && t.n < Pow256(4) && Fit(t.hashes, 32)
    && |t.hashes| <= most && |t.flags| <= most
    && |t.hashes| < 0x1_0000_0000_0000_0000 && |t.flags| < 0x1_0000_0000_0000_0000
  }

  lemma TreeSize(t: Sent)
    ensures |WriteTree(t)| == 4 + SizeOf(|t.hashes|) + 32 * |t.hashes| + SizeOf(|t.flags|) + |t.flags|
  {
    AllWritten(t.hashes, 32);
    WrittenSize(|t.hashes|);
    WrittenSize(|t.flags|);
  }

  /** A tree that was written is read back, whatever follows it. */
  lemma TreeRead(t: Sent, rest: Bytes, most: nat)
    requires CanBeSent(t, most)
    ensures ReadTree(WriteTree(t) + rest, most) == Some(Got(t, rest))
  {
    hide Little, Value, Take, ReadSize, WriteSize, ReadAll, WriteAll, Fit, Pow256;
    var s4 := t.flags + rest;
    var s3 := WriteSize(|t.flags|) + s4;
    var s2 := WriteAll(t.hashes, 32) + s3;
    var s1 := WriteSize(|t.hashes|) + s2;
    assert WriteTree(t) + rest == Little(t.n, 4) + s1;
    ValueOfLittle(t.n, 4);
    TakeWritten(Little(t.n, 4), s1);
    ReadWritten(|t.hashes|, s2, most);
    AllRead(t.hashes, 32, s3);
    ReadWritten(|t.flags|, s4, most);
    TakeWritten(t.flags, rest);
  }

  /** And whatever is read as a tree was written as that tree: no two streams give the same one. */
  lemma TreeIsWritten(s: Bytes, most: nat)
    requires ReadTree(s, most).Some?
    ensures var got := ReadTree(s, most).value;
            s == WriteTree(got.value) + got.rest && CanBeSent(got.value, most)
  {
    hide Little, Value, Take, ReadSize, WriteSize, ReadAll, WriteAll, Fit, Pow256;
    TakeIs(s, 4);
    var Got(n, s1) := Take(s, 4).value;
    LittleOfValue(n);
    ReadIsWritten(s1, most);
    var Got(count, s2) := ReadSize(s1, most).value;
    AllIsWritten(s2, count, 32);
    var Got(hashes, s3) := ReadAll(s2, count, 32).value;
    ReadIsWritten(s3, most);
    var Got(size, s4) := ReadSize(s3, most).value;
    TakeIs(s4, size);
    var Got(flags, rest) := Take(s4, size).value;
    InOrder(n, WriteSize(count), WriteAll(hashes, 32), WriteSize(size), flags, rest);
  }

  lemma InOrder(a: Bytes, b: Bytes, c: Bytes, d: Bytes, e: Bytes, f: Bytes)
    ensures a + (b + (c + (d + (e + f)))) == a + b + c + d + e + f
  {
  }
}
