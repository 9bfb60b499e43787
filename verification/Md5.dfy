/** The streaming digest. */
module Md5 {
  import opened Md5Spec
  import opened Md5Rounds

  const INT_MAX := 0x7fff_ffff

  method Memcpy(dst: array<byte>, to: nat, src: array<byte>, from: nat, n: nat)
    requires dst != src && to + n <= dst.Length && from + n <= src.Length
    modifies dst
    ensures dst[..] == old(dst[..to]) + src[from..from + n] + old(dst[to + n..])
  {
    forall k | 0 <= k < n {
      dst[to + k] := src[from + k];
    }
  }

  // ---------------------------------------------------------------- counter arithmetic

  /** The two count words hold the bit length of `len` bytes. */
  predicate Counts(count0: word, count1: word, len: nat) {
    count1 * TWO32 + count0 == 8 * len % TWO64
  }

  lemma {:induction false} Residue(x: int, q: int, r: int)
    requires x == 64 * q + r && 0 <= r < 64
    ensures x % 64 == r
  {
  }

  /** Whole blocks do not change a length modulo 64. */
  lemma {:induction false} DropBlocks(n: int, j: int)
    ensures (n + 64 * j) % 64 == n % 64
  {
    Residue(n + 64 * j, n / 64 + j, n % 64);
  }

  lemma {:induction false} Eighth(c: int, n: int)
    requires c == 8 * n
    ensures c / 8 == n
  {
  }

  lemma {:induction false} CountOffset(count0: word, count1: word, len: nat)
    requires Counts(count0, count1, len)
    ensures count0 / 8 % 64 == len % 64
  {
    var q := 8 * len / TWO64;
    assert 8 * len == q * TWO64 + count1 * TWO32 + count0;
    var j := q * 0x80_0000_0000_0000 + count1 * 0x80_0000;
    assert count0 == 8 * (len + 64 * -j);
    Eighth(count0, len + 64 * -j);
    DropBlocks(len, -j);
  }

  /** The carry between the words: the low word wrapped exactly if it ends below the addend. */
  lemma {:induction false} CountAdvance(count0: word, count1: word, len: nat, n: nat)
    requires Counts(count0, count1, len) && 0 < n <= INT_MAX
    ensures var nbits := n * 8 % TWO32;
            var low := (count0 + nbits) % TWO32;
            var high := (count1 + n / 0x2000_0000) % TWO32;
            Counts(low, if low < nbits then (high + 1) % TWO32 else high, len + n)
  {
    assert n * 8 == n / 0x2000_0000 * TWO32 + n * 8 % TWO32;
    AddWords(count0, count1, n * 8 % TWO32, n / 0x2000_0000);
    AddModulo(8 * len, 8 * n);
  }

  lemma {:induction false} AddModulo(m: nat, n: nat)
    ensures (m + n) % TWO64 == (m % TWO64 + n) % TWO64
  {
    var q := m / TWO64;
    var r := m % TWO64 + n;
    assert m + n == (q + r / TWO64) * TWO64 + r % TWO64;
  }

  lemma {:induction false} AddWords(c0: word, c1: word, n0: word, n1: word)
    ensures var low := (c0 + n0) % TWO32;
            var high := (c1 + n1) % TWO32;
            (if low < n0 then (high + 1) % TWO32 else high) * TWO32 + low ==
            (c1 * TWO32 + c0 + n1 * TWO32 + n0) % TWO64
  {
    var low := (c0 + n0) % TWO32;
    var carry := if low < n0 then 1 else 0;
    assert c0 + n0 == low + carry * TWO32;
    var high := c1 + n1 + carry;
    var wraps := if high < TWO32 then 0 else 1;
    assert (c1 + n1) % TWO32 == (if c1 + n1 < TWO32 then c1 + n1 else c1 + n1 - TWO32);
    var top := high - wraps * TWO32;
    assert 0 <= top < TWO32 && high % TWO32 == top;
    assert c1 * TWO32 + c0 + n1 * TWO32 + n0 == wraps * TWO64 + (top * TWO32 + low);
  }

  // ---------------------------------------------------------------- blocks

  lemma {:induction false} BlocksAppend(m: seq<byte>, block: seq<byte>)
    requires |m| % 64 == 0 && |block| == 64
    ensures |m + block| % 64 == 0
    ensures Blocks(m + block) == Compress(Blocks(m), block)
  {
    DropBlocks(|m|, 1);
    var all := m + block;
    assert all[..|all| - 64] == m && all[|all| - 64..] == block;
  }

  /** The whole blocks of a message. */
  function Whole(m: seq<byte>): (w: seq<byte>)
    ensures |w| % 64 == 0
  {
    m[..|m| - |m| % 64]
  }

  /** The bytes after them. */
  function Tail(m: seq<byte>): (t: seq<byte>)
    ensures |t| == |m| % 64
  {
    m[|m| - |m| % 64..]
  }

  class State {
    var count0: word
    var count1: word
    var abcd: Regs
    const buf: array<byte>
    ghost var message: seq<byte>

    /** The registers and the buffer are those a single append of `m` would leave. */
    ghost predicate Digested(m: seq<byte>)
      reads this, buf
    {
      buf.Length == 64 && abcd == Blocks(Whole(m)) && buf[..|m| % 64] == Tail(m)
    }

    ghost predicate Valid()
      reads this, buf
    {
      Counts(count0, count1, |message|) && Digested(message)
    }

    constructor ()
      ensures Valid() && fresh(buf) && message == []
    {
      count0, count1 := 0, 0;
      abcd := Regs(0x67452301, (T_MASK ^ 0x10325476) as word, (T_MASK ^ 0x67452301) as word, 0x10325476);
      buf := new byte[64];
      message := [];
    }

    method Process(data: array<byte>, off: nat)
      requires off + 64 <= data.Length
      modifies this`abcd
      ensures abcd == Compress(old(abcd), old(data[off..off + 64]))
    {
      hide Operations;
      var x := Load(data, off);
      var r := Round1(abcd, x);
      r := Round2(r, x);
      r := Round3(r, x);
      r := Round4(r, x);
      FourRounds(abcd, x);
      abcd := Regs(Add(abcd.a, r.a), Add(abcd.b, r.b), Add(abcd.c, r.c), Add(abcd.d, r.d));
    }

    /** Adds the bits of nbytes bytes to the two-word counter. */
    method Count(nbytes: int, ghost len: nat)
      requires Counts(count0, count1, len) && 0 < nbytes <= INT_MAX
      modifies this`count0, this`count1
      ensures Counts(count0, count1, len + nbytes)
    {
      CountAdvance(count0, count1, len, nbytes);
      var nbits := nbytes * 8 % TWO32;
      count1 := (count1 + nbytes / 0x2000_0000) % TWO32;
      count0 := (count0 + nbits) % TWO32;
      if count0 < nbits {
        count1 := (count1 + 1) % TWO32;
      }
    }

    /** The caller owes that the partial block plus nbytes fits a C int. */
    method Append(data: array<byte>, nbytes: int)
      requires Valid() && nbytes <= data.Length && data != buf
      requires |message| % 64 + nbytes <= INT_MAX
      modifies this, buf
      ensures Valid() && message == old(message) + if nbytes <= 0 then [] else data[..nbytes]
    {
      hide Blocks, Compress, Counts;
      if nbytes <= 0 {
        return;
      }
      CountOffset(count0, count1, |message|);
      var p, left := 0, nbytes;
      var offset := count0 / 8 % 64;
      Count(nbytes, |message|);
      ghost var m := message;
      message := m + data[..nbytes];
      if offset != 0 {
        var copy := AppendPartial(data, nbytes, offset, m);
        if offset + copy < 64 {
          return;
        }
        p := p + copy;
        left := left - copy;
      } else {
        assert m + data[..p] == m == Whole(m);
      }
      AppendBlocks(data, p, left, m);
    }

    /** Fills the partial block in the buffer and processes it if that completes it. */
    method AppendPartial(data: array<byte>, nbytes: int, offset: nat, ghost m: seq<byte>) returns (copy: nat)
      requires Digested(m) && offset == |m| % 64 != 0 && 0 < nbytes <= data.Length && data != buf
      modifies this`abcd, buf
      ensures copy == if offset + nbytes > 64 then 64 - offset else nbytes
      ensures offset + copy < 64 ==> Digested(m + data[..nbytes])
      ensures offset + copy == 64 ==> |m + data[..copy]| % 64 == 0 && abcd == Blocks(m + data[..copy])
    {
      hide Blocks, Compress;
      copy := if offset + nbytes > 64 then 64 - offset else nbytes;
      Memcpy(buf, offset, data, 0, copy);
      assert buf[..offset + copy] == Tail(m) + data[..copy];
      if offset + copy < 64 {
        SameBlock(m, data[..nbytes]);
      } else {
        Process(buf, 0);
        assert buf[0..64] == Tail(m) + data[..copy];
        FullBlock(m, data[..copy]);
      }
    }

    /** Processes the whole blocks from p on and keeps the rest. */
    method AppendBlocks(data: array<byte>, start: nat, rest: nat, ghost m: seq<byte>)
      requires buf.Length == 64 && start + rest <= data.Length && data != buf
      requires |m + data[..start]| % 64 == 0 && abcd == Blocks(m + data[..start])
      modifies this`abcd, buf
      ensures Digested(m + data[..start + rest])
    {
      hide Blocks, Compress;
      var p, left := start, rest;
      ghost var d := data[..start + rest];
      assert d[..p] == data[..p];
      while left >= 64
        invariant 0 <= p && 0 <= left && p + left == start + rest
        invariant |m + d[..p]| % 64 == 0
        invariant abcd == Blocks(m + d[..p])
      {
        NextBlock(m, d, p);
        assert d[p..p + 64] == data[p..p + 64];
        Process(data, p);
        p, left := p + 64, left - 64;
      }
      LastBlock(m, d, p);
      assert d[p..] == data[p..p + left];
      if left != 0 {
        Memcpy(buf, 0, data, p, left);
      }
    }

    /** Consumes the state: what remains in it afterwards is the padded message. */
    method Finish() returns (digest: seq<byte>)
      requires Valid()
      modifies this, buf
      ensures digest == Digest(old(message))
      ensures message == Padded(old(message))
    {
      hide Blocks, Compress, LittleEndian, PadLength, Padded, Counts, Whole, Tail;
      ghost var m := message;
      var pad := new byte[64](i => if i == 0 then 0x80 else 0);
      CountOffset(count0, count1, |m|);
      var data := LengthBytes(count0, count1, |m|);
      var padding := ((55 - count0 / 8) % TWO32) % 64 + 1;
      PadIsLeast(|m|, count0 / 8);
      Append(pad, padding);
      Append(data, 8);
      PaddedParts(m, pad[..padding], data[..8]);
      digest := Emit(abcd);
    }
  }

  /** The block as sixteen words, the bytes assembled one by one. */
  method Load(data: array<byte>, off: nat) returns (x: seq<word>)
    requires off + 64 <= data.Length
    ensures x == Words(data[off..off + 64])
  {
    ghost var block := data[off..off + 64];
    x := [];
    for i := 0 to 16
      invariant |x| == i
      invariant forall k :: 0 <= k < i ==> x[k] == WordOf(block[4 * k..4 * k + 4])
    {
      var xp := off + 4 * i;
      AssembleIsFromBytes(block[4 * i..4 * i + 4]);
      x := x + [Assemble(data[xp], data[xp + 1], data[xp + 2], data[xp + 3])];
    }
  }

  lemma {:induction false} FourRounds(r: Regs, x: seq<word>)
    requires |x| == 16
    ensures Operations(0, 64, r, x) ==
            Operations(48, 16, Operations(32, 16, Operations(16, 16, Operations(0, 16, r, x), x), x), x)
  {
    hide Operations, Operation;
    SplitSteps(0, 16, 48, r, x);
    SplitSteps(16, 16, 32, Operations(0, 16, r, x), x);
    SplitSteps(32, 16, 16, Operations(16, 16, Operations(0, 16, r, x), x), x);
  }

  lemma {:induction false} FillsBlock(n: nat, k: nat)
    requires n % 64 + k == 64
    ensures (n + k) % 64 == 0
  {
    Residue(n + k, n / 64 + 1, 0);
  }

  lemma {:induction false} StaysInBlock(n: nat, k: nat)
    requires n % 64 + k < 64
    ensures (n + k) % 64 == n % 64 + k
  {
    Residue(n + k, n / 64, n % 64 + k);
  }

  lemma {:induction false} WholeAndTail(m: seq<byte>)
    ensures m == Whole(m) + Tail(m)
  {
  }

  /** Completing the partial block makes one more whole block. */
  lemma {:induction false} FullBlock(m: seq<byte>, d: seq<byte>)
    requires |m| % 64 + |d| == 64
    ensures |m + d| % 64 == 0 && Blocks(m + d) == Compress(Blocks(Whole(m)), Tail(m) + d)
  {
    hide Blocks, Compress, Whole, Tail;
    FillsBlock(|m|, |d|);
    WholeAndTail(m);
    assert m + d == Whole(m) + (Tail(m) + d);
    BlocksAppend(Whole(m), Tail(m) + d);
  }

  /** A valid state is determined by the message, however it was cut into appends. */
  lemma {:induction false} StateIsDetermined(s: State, t: State)
    requires s.Valid() && t.Valid() && s.message == t.message
    ensures s.count0 == t.count0 && s.count1 == t.count1 && s.abcd == t.abcd
    ensures s.buf[..|s.message| % 64] == t.buf[..|s.message| % 64]
  {
    CountsUnique(s.count0, s.count1, t.count0, t.count1, |s.message|);
    hide Blocks, Counts;
  }

  lemma {:induction false} CountsUnique(c0: word, c1: word, d0: word, d1: word, len: nat)
    requires Counts(c0, c1, len) && Counts(d0, d1, len)
    ensures c0 == d0 && c1 == d1
  {
    assert c0 - d0 == (d1 - c1) * TWO32;
  }

  function Flatten(chunks: seq<seq<byte>>): seq<byte> {
    if chunks == [] then [] else Flatten(chunks[..|chunks| - 1]) + chunks[|chunks| - 1]
  }

  /** init, one append per chunk, finish: the digest of the concatenation. The caller owes for
      each chunk what append asks for. */
  method DigestChunks(chunks: seq<seq<byte>>) returns (digest: seq<byte>)
    requires forall i :: 0 <= i < |chunks| ==> |Flatten(chunks[..i])| % 64 + |chunks[i]| <= INT_MAX
    ensures digest == Digest(Flatten(chunks))
  {
    hide Digest, Blocks, Counts, Compress, Padded, Whole, Tail;
    var state := new State();
    for i := 0 to |chunks|
      invariant state.Valid() && fresh(state) && fresh(state.buf)
      invariant state.message == Flatten(chunks[..i])
    {
      var c := chunks[i];
      var data := new byte[|c|](k requires 0 <= k < |c| => c[k]);
      assert data[..|c|] == c;
      assert chunks[..i + 1][..i] == chunks[..i];
      state.Append(data, |c|);
    }
    assert chunks[..|chunks|] == chunks;
    digest := state.Finish();
  }

  function Digit(n: nat): char
    requires n < 16
  {
    "0123456789abcdef"[n]
  }

  function Hex(b: seq<byte>): (h: string)
    ensures |h| == 2 * |b|
  {
    if b == [] then "" else [Digit(b[0] / 16), Digit(b[0] % 16)] + Hex(b[1..])
  }

  /** The hex form loses nothing. */
  lemma {:induction false} HexInjective(a: seq<byte>, b: seq<byte>)
    requires Hex(a) == Hex(b)
    ensures a == b
  {
    if a != [] && b != [] {
      assert Hex(a)[0] == Hex(b)[0] && Hex(a)[1] == Hex(b)[1];
      assert Hex(a)[2..] == Hex(a[1..]) && Hex(b)[2..] == Hex(b[1..]);
      DigitsDistinct(a[0] / 16, b[0] / 16);
      DigitsDistinct(a[0] % 16, b[0] % 16);
      assert a[0] == b[0];
      HexInjective(a[1..], b[1..]);
      assert a == [a[0]] + a[1..] && b == [b[0]] + b[1..];
    }
  }

  lemma {:induction false} DigitIs(n: nat)
    requires n < 16
    ensures Digit(n) as int == if n < 10 then '0' as int + n else 'a' as int + n - 10
  {
  }

  lemma {:induction false} DigitsDistinct(i: nat, j: nat)
    requires i < 16 && j < 16 && Digit(i) == Digit(j)
    ensures i == j
  {
  }

  lemma {:induction false} HexAppend(a: seq<byte>, x: byte)
    ensures Hex(a + [x]) == Hex(a) + [Digit(x / 16), Digit(x % 16)]
  {
    if a == [] {
      assert a + [x] == [x] && [x][1..] == [];
    } else {
      assert (a + [x])[1..] == a[1..] + [x];
      HexAppend(a[1..], x);
    }
  }

  method ToHex(digest: seq<byte>) returns (hex: string)
    ensures hex == Hex(digest)
  {
    hide Digit;
    hex := "";
    for offset := 0 to |digest|
      invariant hex == Hex(digest[..offset])
    {
      assert digest[..offset + 1] == digest[..offset] + [digest[offset]];
      HexAppend(digest[..offset], digest[offset]);
      hex := hex + [Digit(digest[offset] / 16), Digit(digest[offset] % 16)];
    }
    assert digest[..|digest|] == digest;
  }

  /** The hex digest of a string; its length is passed on as a C int. */
  method Md5Sum(text: array<byte>) returns (hex: string)
    requires text.Length <= INT_MAX
    ensures hex == Hex(Digest(text[..]))
  {
    hide Digest, Hex, Blocks, Counts, Compress, Padded, Whole, Tail;
    var state := new State();
    state.Append(text, text.Length);
    assert state.message == text[..];
    var digest := state.Finish();
    hex := ToHex(digest);
  }

  lemma {:induction false} PaddedParts(m: seq<byte>, pad: seq<byte>, length: seq<byte>)
    requires |pad| == PadLength(|m|, 1) && length == LittleEndian(8 * |m| % TWO64, 8)
    requires forall i :: 0 <= i < |pad| ==> pad[i] == if i == 0 then 0x80 else 0
    ensures m + pad + length == Padded(m) && Whole(Padded(m)) == Padded(m)
  {
    hide PadLength, LittleEndian;
    assert pad == [0x80] + seq(|pad| - 1, _ => 0);
  }

  lemma {:induction false} NextBlock(m: seq<byte>, d: seq<byte>, p: nat)
    requires p + 64 <= |d| && |m + d[..p]| % 64 == 0
    ensures |m + d[..p + 64]| % 64 == 0
    ensures Blocks(m + d[..p + 64]) == Compress(Blocks(m + d[..p]), d[p..p + 64])
  {
    hide Blocks, Compress;
    assert m + d[..p + 64] == (m + d[..p]) + d[p..p + 64];
    BlocksAppend(m + d[..p], d[p..p + 64]);
  }

  lemma {:induction false} LastBlock(m: seq<byte>, d: seq<byte>, p: nat)
    requires p <= |d| < p + 64 && |m + d[..p]| % 64 == 0
    ensures Whole(m + d) == m + d[..p] && Tail(m + d) == d[p..]
  {
    assert m + d == (m + d[..p]) + d[p..];
    SameBlock(m + d[..p], d[p..]);
  }

  /** Appending without completing a block leaves the whole blocks alone. */
  lemma {:induction false} SameBlock(m: seq<byte>, d: seq<byte>)
    requires |m| % 64 + |d| < 64
    ensures Whole(m + d) == Whole(m) && Tail(m + d) == Tail(m) + d
  {
    StaysInBlock(|m|, |d|);
    var n := |m| - |m| % 64;
    assert (m + d)[..n] == m[..n] && (m + d)[n..] == m[n..] + d;
  }

  /** A difference of 32-bit words, wrapped around below zero. */
  lemma {:induction false} Wrapped(c: nat)
    requires c < 0x2000_0000
    ensures (55 - c) % TWO32 == if c <= 55 then 55 - c else 55 - c + TWO32
  {
  }

  /** Padding by the wrapped difference reaches 56 modulo 64. */
  lemma {:induction false} WrappedPads(c: nat, u: nat)
    requires u == if c <= 55 then 55 - c else 55 - c + TWO32
    ensures (c + (u % 64 + 1)) % 64 == 56
  {
    var j := u / 64;
    assert u == 64 * j + u % 64;
    if c <= 55 {
      Residue(c + (u % 64 + 1), -j, 56);
    } else {
      Residue(c + (u % 64 + 1), 0x400_0000 - j, 56);
    }
  }

  /** The modular formula of the code is the least padding. */
  lemma {:induction false} PadIsLeast(len: nat, c: nat)
    requires c % 64 == len % 64 && c < 0x2000_0000
    ensures ((55 - c) % TWO32) % 64 + 1 == PadLength(len, 1)
  {
    hide PadLength;
    Wrapped(c);
    var u: nat := (55 - c) % TWO32;
    WrappedPads(c, u);
    SameResidue(c, len, u % 64 + 1);
    OnePad(len, u % 64 + 1, PadLength(len, 1));
  }

  lemma {:induction false} SameResidue(c: nat, len: nat, p: nat)
    requires c % 64 == len % 64 && (c + p) % 64 == 56
    ensures (len + p) % 64 == 56
  {
    var j := len / 64 - c / 64;
    assert len + p == (c + p) + 64 * j;
    DropBlocks(c + p, j);
  }

  lemma {:induction false} OnePad(len: nat, p: nat, n: nat)
    requires 1 <= p <= 64 && 1 <= n <= 64 && (len + p) % 64 == (len + n) % 64
    ensures p == n
  {
    assert p - n == 64 * ((len + p) / 64 - (len + n) / 64);
  }

  function ByteOf(w: word, j: nat): byte
    requires j < 4
  {
    (if j == 0 then w else if j == 1 then w / 0x100 else if j == 2 then w / 0x1_0000 else w / 0x100_0000) % 256
  }

  function Pow256(k: nat): nat {
    if k == 0 then 1 else 256 * Pow256(k - 1)
  }

  /** The bytes of a number are those of its low part followed by those of its high part. */
  lemma {:induction false} LittleEndianSplit(low: nat, high: nat, j: nat, k: nat)
    requires low < Pow256(j)
    ensures LittleEndian(high * Pow256(j) + low, j + k) == LittleEndian(low, j) + LittleEndian(high, k)
  {
    if j == 0 {
      assert LittleEndian(low, 0) + LittleEndian(high, k) == LittleEndian(high, k);
    } else {
      var n := high * Pow256(j) + low;
      assert n == 256 * (high * Pow256(j - 1)) + low;
      assert n % 256 == low % 256 && n / 256 == high * Pow256(j - 1) + low / 256;
      LittleEndianSplit(low / 256, high, j - 1, k);
    }
  }

  lemma {:induction false} WordBytes(w: word)
    ensures LittleEndian(w, 4) == [ByteOf(w, 0), ByteOf(w, 1), ByteOf(w, 2), ByteOf(w, 3)]
  {
    FourBytes(w);
  }

  /** The eight length bytes come from the two count words separately. */
  lemma {:induction false} CountBytes(count0: word, count1: word, len: nat)
    requires Counts(count0, count1, len)
    ensures forall i :: 0 <= i < 8 ==>
              LittleEndian(8 * len % TWO64, 8)[i] == ByteOf(if i < 4 then count0 else count1, i % 4)
  {
    hide LittleEndian, ByteOf;
    var bytes := LittleEndian(8 * len % TWO64, 8);
    assert bytes == LittleEndian(count0, 4) + LittleEndian(count1, 4) by {
      assert Pow256(4) == 256 * Pow256(3) == 0x1_0000 * Pow256(2) == TWO32;
      LittleEndianSplit(count0, count1, 4, 4);
    }
    WordBytes(count0);
    WordBytes(count1);
    forall i | 0 <= i < 8
      ensures bytes[i] == ByteOf(if i < 4 then count0 else count1, i % 4)
    {
      assert i % 4 == if i < 4 then i else i - 4;
    }
  }

  method LengthBytes(count0: word, count1: word, ghost len: nat) returns (data: array<byte>)
    requires Counts(count0, count1, len)
    ensures fresh(data) && data[..] == LittleEndian(8 * len % TWO64, 8)
  {
    data := new byte[8];
    CountBytes(count0, count1, len);
    hide LittleEndian, ByteOf;
    var i := 0;
    while i < 8
      invariant 0 <= i <= 8
      invariant forall k :: 0 <= k < i ==> data[k] == ByteOf(if k < 4 then count0 else count1, k % 4)
    {
      data[i] := ByteOf(if i < 4 then count0 else count1, i % 4);
      i := i + 1;
    }
  }

  method Emit(r: Regs) returns (digest: seq<byte>)
    ensures digest == Output(r)
  {
    var abcd := [r.a, r.b, r.c, r.d];
    WordBytes(r.a);
    WordBytes(r.b);
    WordBytes(r.c);
    WordBytes(r.d);
    digest := [];
    for i := 0 to 16
      invariant |digest| == i
      invariant forall k :: 0 <= k < i ==> digest[k] == ByteOf(abcd[k / 4], k % 4)
    {
      digest := digest + [ByteOf(abcd[i / 4], i % 4)];
    }
  }
}
