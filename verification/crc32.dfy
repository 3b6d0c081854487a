/** Word-level facts, each kept by itself so that no definition has to be unfolded around it. */
module WordFacts {

  lemma XorSelf(x: bv32, y: bv32)
    ensures x ^ y == 0 <==> x == y
  {
  }

  lemma XorMaskKeepsDifference(x: bv32, y: bv32, mask: bv32)
    requires x != y
    ensures x ^ mask != y ^ mask
  {
  }

  lemma XorAssociates(x: bv32, y: bv32, z: bv32, yz: bv32, xy: bv32)
    requires yz == y ^ z && xy == x ^ y
    ensures x ^ yz == xy ^ z
  {
  }

  lemma XorZero(x: bv32)
    ensures x ^ 0 == x && 0 ^ x == x
  {
  }

  lemma XorRearranges(c: bv32, d: bv32, a: bv32, b: bv32, cd: bv32, ab: bv32, ca: bv32, db: bv32)
    requires cd == c ^ d && ab == a ^ b && ca == c ^ a && db == d ^ b
    ensures cd ^ ab == ca ^ db
  {
  }

  lemma BytesXorAsWords(a: bv8, b: bv8)
    ensures (a ^ b) as bv32 == (a as bv32) ^ (b as bv32)
  {
  }

  lemma ByteXorZero(a: bv8, b: bv8)
    ensures a ^ b == 0 <==> a == b
  {
  }

  lemma ReflectedStepLinear(p: bv32, x: bv32, y: bv32)
    ensures ((x ^ y) >> 1) ^ (p & (0 - ((x ^ y) & 1)))
            == ((x >> 1) ^ (p & (0 - (x & 1)))) ^ ((y >> 1) ^ (p & (0 - (y & 1))))
  {
  }

  lemma ReflectedStepsAdd(p: bv32, x: bv32, y: bv32, stepped: bv32, steppedX: bv32, steppedY: bv32)
    requires stepped == ((x ^ y) >> 1) ^ (p & (0 - ((x ^ y) & 1)))
    requires steppedX == (x >> 1) ^ (p & (0 - (x & 1)))
    requires steppedY == (y >> 1) ^ (p & (0 - (y & 1)))
    ensures stepped == steppedX ^ steppedY
  {
    ReflectedStepLinear(p, x, y);
  }

  lemma ReflectedStepKeepsNonZero(p: bv32, x: bv32)
    requires p & 0x8000_0000 != 0 && x != 0
    ensures (x >> 1) ^ (p & (0 - (x & 1))) != 0
  {
  }

  lemma ReflectedStepShifts(p: bv32, x: bv32)
    requires x & 1 == 0
    ensures (x >> 1) ^ (p & (0 - (x & 1))) == x >> 1
  {
  }

  lemma ShiftedBytes(x: bv32)
    requires x <= 0xff_ffff
    ensures (x << 8) & 1 == 0 && (x << 8) >> 1 == x << 7
    ensures (x << 7) & 1 == 0 && (x << 7) >> 1 == x << 6
    ensures (x << 6) & 1 == 0 && (x << 6) >> 1 == x << 5
    ensures (x << 5) & 1 == 0 && (x << 5) >> 1 == x << 4
    ensures (x << 4) & 1 == 0 && (x << 4) >> 1 == x << 3
    ensures (x << 3) & 1 == 0 && (x << 3) >> 1 == x << 2
    ensures (x << 2) & 1 == 0 && (x << 2) >> 1 == x << 1
    ensures (x << 1) & 1 == 0 && (x << 1) >> 1 == x
  {
  }

  lemma WordGrows(b: bv8, x: bv32, y: bv32, bound: bv32, next: bv32)
    requires (bound == 0 && next == 0xff) || (bound == 0xff && next == 0xffff) || (bound == 0xffff && next == 0xff_ffff)
    requires x <= bound && y == (b as bv32) ^ (x << 8)
    ensures y <= next
  {
  }

  lemma ByteAsWord(b: int)
    requires 0 <= b < 256
    ensures (b as bv8) as int == b
  {
    assert 0 <= (b as bv8) as int < 256;
    assert ((b as bv8) as int - b) % 256 == 0;
  }

  lemma WordsAsInts(x: bv32, y: bv32)
    requires x != y
    ensures x as int != y as int
  {
    assert (x as int) as bv32 == x;
    assert (y as int) as bv32 == y;
  }

  lemma WordVanishes(b: bv8, x: bv32, y: bv32)
    requires x <= 0xff_ffff && y == (b as bv32) ^ (x << 8) && y == 0
    ensures b == 0 && x == 0
  {
  }
}

/**
 Shift registers with exclusive-or feedback, over any word type `W` and byte type `B`. Keeping the
 word type abstract keeps the algebra apart from 32-bit arithmetic.
 */
module LinearRegisters {

  datatype Register<!W(!new), !B(!new)> = Register(
    bits: nat,              // bit steps per byte
    step: W -> W,           // one bit step
    xor: (W, W) -> W,
    zero: W,
    load: B -> W,           // a byte in the low end of a word
    push: W -> W,           // a word moved up by one byte
    byteXor: (B, B) -> B,
    noByte: B,
    fits: (W, int) -> bool) // the word occupies at most that many bytes
  {
    ghost predicate Group() {
      && (forall x :: xor(x, zero) == x && xor(zero, x) == x)
      && (forall x, y, z {:trigger Regroup(x, y, z)} :: Regroup(x, y, z))
      && (forall x, y :: xor(x, y) == zero <==> x == y)
      && load(noByte) == zero
      && (forall a, b :: byteXor(a, b) == noByte <==> a == b)
      && (forall c, d, a, b :: xor(xor(c, d), load(byteXor(a, b))) == xor(xor(c, load(a)), xor(d, load(b))))
    }

    /** Associativity at three words; named so that it is used only where it is mentioned. */
    ghost predicate Regroup(x: W, y: W, z: W) {
      xor(x, xor(y, z)) == xor(xor(x, y), z)
    }

    ghost predicate Linear() {
      && step(zero) == zero
      && (forall x, y :: step(xor(x, y)) == xor(step(x), step(y)))
      && (forall x :: x != zero ==> step(x) != zero)
    }

    ghost predicate Words() {
      && fits(zero, 0)
      && (forall x, n :: 0 <= n <= 3 && fits(x, n) ==> Steps(push(x), bits) == x)
      && (forall b, x, n :: 0 <= n <= 3 && fits(x, n) ==> fits(xor(load(b), push(x)), n + 1))
      && (forall b, x, n :: 0 <= n <= 3 && fits(x, n) && xor(load(b), push(x)) == zero ==> b == noByte && x == zero)
    }

    function Steps(c: W, n: nat): W
      decreases n
    {
      if n == 0 then c else Steps(step(c), n - 1)
    }

    function FeedByte(c: W, b: B): W {
      Steps(xor(c, load(b)), bits)
    }

    /** The register after feeding the bytes in order. */
    function Feed(c: W, bytes: seq<B>): W
      decreases bytes
    {
      if bytes == [] then c else Feed(FeedByte(c, bytes[0]), bytes[1..])
    }

    lemma {:induction false} FeedAppend(c: W, a: seq<B>, b: seq<B>)
      ensures Feed(c, a + b) == Feed(Feed(c, a), b)
      decreases a
    {
      if a == [] {
        assert a + b == b;
      } else {
        assert (a + b)[1..] == a[1..] + b;
        FeedAppend(FeedByte(c, a[0]), a[1..], b);
      }
    }

    lemma FeedOneMore(c: W, bytes: seq<B>, i: nat)
      requires i < |bytes|
      ensures Feed(c, bytes[..i + 1]) == FeedByte(Feed(c, bytes[..i]), bytes[i])
    {
      var last := [bytes[i]];
      assert bytes[..i + 1] == bytes[..i] + last;
      FeedAppend(c, bytes[..i], last);
      assert last[1..] == [];
    }

    lemma {:induction false} StepsLast(c: W, n: nat)
      ensures Steps(c, n + 1) == step(Steps(c, n))
      decreases n
    {
      if n > 0 { StepsLast(step(c), n - 1); }
    }

    lemma {:induction false} StepsLinear(x: W, y: W, n: nat)
      requires Linear()
      ensures Steps(xor(x, y), n) == xor(Steps(x, n), Steps(y, n))
      decreases n
    {
      if n > 0 {
        StepsLinear(step(x), step(y), n - 1);
      }
    }

    lemma {:induction false} StepsZeroIff(x: W, n: nat)
      requires Linear()
      ensures Steps(x, n) == zero <==> x == zero
      decreases n
    {
      if n > 0 { StepsZeroIff(step(x), n - 1); }
    }

    /** Bit steps for `k` whole bytes. */
    function ByteSteps(c: W, k: nat): W
      decreases k
    {
      if k == 0 then c else ByteSteps(Steps(c, bits), k - 1)
    }

    lemma {:induction false} ByteStepsZeroIff(x: W, k: nat)
      requires Linear()
      ensures ByteSteps(x, k) == zero <==> x == zero
      decreases k
    {
      if k > 0 {
        StepsZeroIff(x, bits);
        ByteStepsZeroIff(Steps(x, bits), k - 1);
      }
    }

    function Difference(a: seq<B>, b: seq<B>): seq<B>
      requires |a| == |b|
    {
      seq(|a|, i requires 0 <= i < |a| => byteXor(a[i], b[i]))
    }

    /** The difference of two runs is the run of the differences. */
    lemma {:induction false} FeedLinear(c: W, d: W, a: seq<B>, b: seq<B>)
      requires Group() && Linear() && |a| == |b|
      ensures xor(Feed(c, a), Feed(d, b)) == Feed(xor(c, d), Difference(a, b))
      decreases a
    {
      if a != [] {
        var e := Difference(a, b);
        assert e[1..] == Difference(a[1..], b[1..]);
        StepsLinear(xor(c, load(a[0])), xor(d, load(b[0])), bits);
        FeedLinear(FeedByte(c, a[0]), FeedByte(d, b[0]), a[1..], b[1..]);
      }
    }

    ghost predicate Blank(e: seq<B>) {
      forall i :: 0 <= i < |e| ==> e[i] == noByte
    }

    lemma {:induction false} FeedBlank(c: W, e: seq<B>)
      requires Group() && Linear() && Blank(e)
      ensures Feed(c, e) == zero <==> c == zero
      decreases e
    {
      if e != [] {
        StepsZeroIff(c, bits);
        FeedBlank(Steps(c, bits), e[1..]);
      }
    }

    // ----- up to four bytes act as one word -----

    function Word(w: seq<B>): W {
      if w == [] then zero else xor(load(w[0]), push(Word(w[1..])))
    }

    lemma {:induction false} WordFits(w: seq<B>)
      requires Words() && |w| <= 4
      ensures fits(Word(w), |w|)
      ensures Word(w) == zero ==> Blank(w)
    {
      if w != [] {
        WordFits(w[1..]);
        assert w == [w[0]] + w[1..];
      }
    }

    /** One byte of a word is consumed; the rest moves down into place. */
    lemma ConsumeByte(c: W, b: B, rest: W, n: int)
      requires Group() && Linear() && Words() && 0 <= n <= 3 && fits(rest, n)
      ensures Steps(xor(c, xor(load(b), push(rest))), bits) == xor(FeedByte(c, b), rest)
    {
      assert Regroup(c, load(b), push(rest));
      StepsLinear(xor(c, load(b)), push(rest), bits);
    }

    lemma {:induction false} FeedWord(c: W, w: seq<B>)
      requires Group() && Linear() && Words() && |w| <= 4
      ensures Feed(c, w) == ByteSteps(xor(c, Word(w)), |w|)
      decreases w
    {
      if w != [] {
        WordFits(w[1..]);
        ConsumeByte(c, w[0], Word(w[1..]), |w[1..]|);
        FeedWord(FeedByte(c, w[0]), w[1..]);
      }
    }

    /** A difference confined to at most four consecutive bytes never cancels. */
    lemma BurstNonZero(before: seq<B>, w: seq<B>, after: seq<B>)
      requires Group() && Linear() && Words()
      requires Blank(before) && Blank(after) && |w| <= 4 && !Blank(w)
      ensures Feed(zero, before + (w + after)) != zero
    {
      FeedAppend(zero, before, w + after);
      FeedAppend(zero, w, after);
      FeedBlank(zero, before);
      WordFits(w);
      FeedWord(zero, w);
      ByteStepsZeroIff(Word(w), |w|);
      FeedBlank(Feed(zero, w), after);
    }

    lemma SplitBurst(e: seq<B>, from: nat, until: nat)
      requires from <= until <= |e|
      requires Blank(e[..from]) && Blank(e[until..]) && !Blank(e)
      ensures !Blank(e[from..until])
      ensures e == e[..from] + (e[from..until] + e[until..])
    {
      var i :| 0 <= i < |e| && e[i] != noByte;
      assert from <= i < until;
      assert e[from..until][i - from] != noByte;
    }

    /** Runs over inputs that differ only within four consecutive bytes end in different words. */
    lemma BurstsSeparate(c: W, a: seq<B>, b: seq<B>, from: nat, until: nat)
      requires Group() && Linear() && Words()
      requires |a| == |b| && a != b
      requires from <= until <= |a| && until - from <= 4
      requires a[..from] == b[..from] && a[until..] == b[until..]
      ensures Feed(c, a) != Feed(c, b)
    {
      var e := Difference(a, b);
      var i :| 0 <= i < |a| && a[i] != b[i];
      assert e[i] != noByte;
      forall k | 0 <= k < from ensures e[..from][k] == noByte {
        assert a[..from][k] == b[..from][k];
      }
      forall k | 0 <= k < |e| - until ensures e[until..][k] == noByte {
        assert a[until..][k] == b[until..][k];
      }
      SplitBurst(e, from, until);
      BurstNonZero(e[..from], e[from..until], e[until..]);
      FeedLinear(c, c, a, b);
    }
  }
}

/**
 The checksum of the provisioning archive (frontend/homepass-nfc-provisioner.js, crc32):
 reflected CRC-32 with polynomial 0xEDB88320, bit by bit.
 */
module Crc32 {
  import opened WordFacts
  import opened LinearRegisters

  const POLYNOMIAL: bv32 := 0xedb88320

  function Step(c: bv32): bv32 {
    (c >> 1) ^ (POLYNOMIAL & (0 - (c & 1)))
  }

  function XorWords(x: bv32, y: bv32): bv32 { x ^ y }

  function XorBytes(a: bv8, b: bv8): bv8 { a ^ b }

  function Load(b: bv8): bv32 { b as bv32 }

  function Push(x: bv32): bv32 { x << 8 }

  predicate Fits(x: bv32, n: int) {
    if n == 0 then x == 0 else if n == 1 then x <= 0xff else if n == 2 then x <= 0xffff
    else if n == 3 then x <= 0xff_ffff else true
  }

  const CRC: Register<bv32, bv8> := Register(
    8, Step, XorWords, 0, Load, Push, XorBytes, 0, Fits)

  function Checksum(bytes: seq<bv8>): bv32 {
    CRC.Feed(0xffff_ffff, bytes) ^ 0xffff_ffff
  }

  /** Eight bit steps on the register, the inner loop. */
  method ShiftByte(mixed: bv32) returns (crc: bv32)
    ensures crc == CRC.Steps(mixed, 8)
  {
    crc := mixed;
    for bit := 0 to 8
      invariant crc == CRC.Steps(mixed, bit)
    {
      CRC.StepsLast(mixed, bit);
      crc := (crc >> 1) ^ (POLYNOMIAL & (0 - (crc & 1)));
    }
  }

  method MixByte(crc: bv32, byte: bv8) returns (next: bv32)
    ensures next == CRC.FeedByte(crc, byte)
  {
    next := crc ^ (byte as bv32);
    assert next == CRC.xor(crc, CRC.load(byte));
    next := ShiftByte(next);
  }

  method ComputeCrc32(bytes: seq<bv8>) returns (crc: bv32)
    ensures crc == Checksum(bytes)
  {
    crc := 0xffff_ffff;
    for i := 0 to |bytes|
      invariant crc == CRC.Feed(0xffff_ffff, bytes[..i])
    {
      CRC.FeedOneMore(0xffff_ffff, bytes, i);
      crc := MixByte(crc, bytes[i]);
    }
    assert bytes[..|bytes|] == bytes;
    crc := crc ^ 0xffff_ffff;
  }

  lemma StepLinear(x: bv32, y: bv32)
    ensures Step(x ^ y) == Step(x) ^ Step(y)
  {
    ReflectedStepsAdd(POLYNOMIAL, x, y, Step(x ^ y), Step(x), Step(y));
  }

  lemma StepKeepsNonZero(x: bv32)
    requires x != 0
    ensures Step(x) != 0
  {
    ReflectedStepKeepsNonZero(POLYNOMIAL, x);
  }

  lemma XorIs(x: bv32, y: bv32)
    ensures CRC.xor(x, y) == x ^ y
  {
  }

  lemma StepIs(x: bv32)
    ensures CRC.step(x) == Step(x)
  {
  }

  lemma StepZero()
    ensures Step(0) == 0
  {
    ReflectedStepShifts(POLYNOMIAL, 0);
  }

  lemma LinearAt(x: bv32, y: bv32)
    ensures CRC.step(CRC.xor(x, y)) == CRC.xor(CRC.step(x), CRC.step(y))
  {
    XorIs(x, y);
    StepIs(x ^ y);
    StepIs(x);
    StepIs(y);
    XorIs(Step(x), Step(y));
    StepLinear(x, y);
  }

  lemma CrcIsLinear()
    ensures CRC.Linear()
  {
    StepZero();
    forall x, y ensures CRC.step(CRC.xor(x, y)) == CRC.xor(CRC.step(x), CRC.step(y)) {
      LinearAt(x, y);
    }
    forall x | x != CRC.zero ensures CRC.step(x) != CRC.zero {
      StepKeepsNonZero(x);
    }
  }

  lemma LoadOfXor(a: bv8, b: bv8)
    ensures CRC.load(CRC.byteXor(a, b)) == CRC.load(a) ^ CRC.load(b)
  {
    BytesXorAsWords(a, b);
  }

  lemma RegroupAt(x: bv32, y: bv32, z: bv32)
    ensures CRC.Regroup(x, y, z)
  {
    XorIs(y, z);
    XorIs(x, y);
    XorIs(x, CRC.xor(y, z));
    XorIs(CRC.xor(x, y), z);
    XorAssociates(x, y, z, CRC.xor(y, z), CRC.xor(x, y));
  }

  lemma RearrangeAt(c: bv32, d: bv32, a: bv8, b: bv8)
    ensures CRC.xor(CRC.xor(c, d), CRC.load(CRC.byteXor(a, b)))
            == CRC.xor(CRC.xor(c, CRC.load(a)), CRC.xor(d, CRC.load(b)))
  {
    var la, lb, lab := CRC.load(a), CRC.load(b), CRC.load(CRC.byteXor(a, b));
    LoadOfXor(a, b);
    XorWordsRearrange(c, d, la, lb, lab);
  }

  lemma XorWordsRearrange(c: bv32, d: bv32, a: bv32, b: bv32, ab: bv32)
    requires ab == a ^ b
    ensures CRC.xor(CRC.xor(c, d), ab) == CRC.xor(CRC.xor(c, a), CRC.xor(d, b))
  {
    var cd, ca, db := CRC.xor(c, d), CRC.xor(c, a), CRC.xor(d, b);
    XorIs(c, d);
    XorIs(c, a);
    XorIs(d, b);
    XorIs(cd, ab);
    XorIs(ca, db);
    XorRearranges(c, d, a, b, cd, ab, ca, db);
  }

  lemma CrcIsGroup()
    ensures CRC.Group()
  {
    forall x ensures CRC.xor(x, CRC.zero) == x && CRC.xor(CRC.zero, x) == x {
      XorZero(x);
    }
    forall x, y, z ensures CRC.Regroup(x, y, z) {
      RegroupAt(x, y, z);
    }
    forall x, y ensures CRC.xor(x, y) == CRC.zero <==> x == y {
      XorSelf(x, y);
    }
    forall a, b ensures CRC.byteXor(a, b) == CRC.noByte <==> a == b {
      ByteXorZero(a, b);
    }
    forall c, d, a, b
      ensures CRC.xor(CRC.xor(c, d), CRC.load(CRC.byteXor(a, b)))
              == CRC.xor(CRC.xor(c, CRC.load(a)), CRC.xor(d, CRC.load(b)))
    {
      RearrangeAt(c, d, a, b);
    }
  }

  lemma EightShifts(x: bv32)
    requires x <= 0xff_ffff
    ensures CRC.Steps(x << 8, 8) == x
  {
    ShiftedBytes(x);
    ReflectedStepShifts(POLYNOMIAL, x << 8);
    ReflectedStepShifts(POLYNOMIAL, x << 7);
    ReflectedStepShifts(POLYNOMIAL, x << 6);
    ReflectedStepShifts(POLYNOMIAL, x << 5);
    ReflectedStepShifts(POLYNOMIAL, x << 4);
    ReflectedStepShifts(POLYNOMIAL, x << 3);
    ReflectedStepShifts(POLYNOMIAL, x << 2);
    ReflectedStepShifts(POLYNOMIAL, x << 1);
  }

  lemma ShiftAt(x: bv32, n: int)
    requires 0 <= n <= 3 && Fits(x, n)
    ensures CRC.Steps(CRC.push(x), CRC.bits) == x
  {
    assert x <= 0xff_ffff;
    assert CRC.push(x) == x << 8;
    EightShifts(x);
  }

  lemma LoadIs(b: bv8)
    ensures CRC.load(b) == b as bv32
  {
  }

  lemma PushIs(x: bv32)
    ensures CRC.push(x) == x << 8
  {
  }

  lemma FitsGrow(b: bv8, x: bv32, y: bv32, n: int)
    requires 0 <= n <= 3 && Fits(x, n) && y == (b as bv32) ^ (x << 8)
    ensures Fits(y, n + 1)
    ensures y == 0 ==> b == 0 && x == 0
  {
    if n == 0 {
      WordGrows(b, x, y, 0, 0xff);
    } else if n == 1 {
      WordGrows(b, x, y, 0xff, 0xffff);
    } else if n == 2 {
      WordGrows(b, x, y, 0xffff, 0xff_ffff);
    }
    if y == 0 { WordVanishes(b, x, y); }
  }

  lemma GrowAt(b: bv8, x: bv32, n: int)
    requires 0 <= n <= 3 && Fits(x, n)
    ensures CRC.fits(CRC.xor(CRC.load(b), CRC.push(x)), n + 1)
    ensures CRC.xor(CRC.load(b), CRC.push(x)) == CRC.zero ==> b == CRC.noByte && x == CRC.zero
  {
    LoadIs(b);
    PushIs(x);
    XorIs(CRC.load(b), CRC.push(x));
    FitsGrow(b, x, CRC.xor(CRC.load(b), CRC.push(x)), n);
  }

  lemma CrcHasWords()
    ensures CRC.Words()
  {
    forall x, n | 0 <= n <= 3 && CRC.fits(x, n) ensures CRC.Steps(CRC.push(x), CRC.bits) == x {
      ShiftAt(x, n);
    }
    forall b, x, n | 0 <= n <= 3 && CRC.fits(x, n)
      ensures CRC.fits(CRC.xor(CRC.load(b), CRC.push(x)), n + 1)
      ensures CRC.xor(CRC.load(b), CRC.push(x)) == CRC.zero ==> b == CRC.noByte && x == CRC.zero
    {
      GrowAt(b, x, n);
    }
  }

  /**
   Two different inputs of equal length that agree outside four consecutive bytes have different
   checksums.
   */
  lemma BurstErrorsDetected(a: seq<bv8>, b: seq<bv8>, from: nat, until: nat)
    requires |a| == |b| && a != b
    requires from <= until <= |a| && until - from <= 4
    requires a[..from] == b[..from] && a[until..] == b[until..]
    ensures Checksum(a) != Checksum(b)
  {
    CrcIsGroup();
    CrcIsLinear();
    CrcHasWords();
    CRC.BurstsSeparate(0xffff_ffff, a, b, from, until);
    XorMaskKeepsDifference(CRC.Feed(0xffff_ffff, a), CRC.Feed(0xffff_ffff, b), 0xffff_ffff);
  }

  lemma ByteFed(c: bv32, b: bv8, r: bv32)
    requires r == Step(Step(Step(Step(Step(Step(Step(Step(c ^ (b as bv32)))))))))
    ensures CRC.FeedByte(c, b) == r
  {
    var x := c ^ (b as bv32);
    assert CRC.xor(c, CRC.load(b)) == x;
    CRC.StepsLast(x, 7);
    CRC.StepsLast(x, 6);
    CRC.StepsLast(x, 5);
    CRC.StepsLast(x, 4);
    CRC.StepsLast(x, 3);
    CRC.StepsLast(x, 2);
    CRC.StepsLast(x, 1);
    CRC.StepsLast(x, 0);
  }

  lemma FedFrom(c: bv32, bytes: seq<bv8>, i: nat, r: bv32)
    requires i < |bytes| && r == Step(Step(Step(Step(Step(Step(Step(Step(c ^ (bytes[i] as bv32)))))))))
    ensures CRC.Feed(c, bytes[i..]) == CRC.Feed(r, bytes[i + 1..])
  {
    ByteFed(c, bytes[i], r);
    assert bytes[i..][1..] == bytes[i + 1..];
  }

  /** The published check value of CRC-32, for the digits 1 to 9: it is this polynomial and no other width or order. */
  lemma CheckValue()
    ensures Checksum([0x31, 0x32, 0x33, 0x34, 0x35, 0x36, 0x37, 0x38, 0x39]) == 0xcbf4_3926
  {
    var digits: seq<bv8> := [0x31, 0x32, 0x33, 0x34, 0x35, 0x36, 0x37, 0x38, 0x39];
    assert digits[0..] == digits && digits[9..] == [];
    FirstDigits(digits);
    MiddleDigits(digits);
    LastDigits(digits);
  }

  lemma FirstDigits(digits: seq<bv8>)
    requires |digits| == 9 && digits[0] == 0x31 && digits[1] == 0x32 && digits[2] == 0x33
    ensures CRC.Feed(0xffff_ffff, digits[0..]) == CRC.Feed(0x77b7_9c2d, digits[3..])
  {
    FedFrom(0xffff_ffff, digits, 0, 0x7c23_1048);
    FedFrom(0x7c23_1048, digits, 1, 0xb0ac_bb32);
    FedFrom(0xb0ac_bb32, digits, 2, 0x77b7_9c2d);
  }

  lemma MiddleDigits(digits: seq<bv8>)
    requires |digits| == 9 && digits[3] == 0x34 && digits[4] == 0x35 && digits[5] == 0x36
    ensures CRC.Feed(0x77b7_9c2d, digits[3..]) == CRC.Feed(0xf68d_2c9e, digits[6..])
  {
    FedFrom(0x77b7_9c2d, digits, 3, 0x641c_1f5c);
    FedFrom(0x641c_1f5c, digits, 4, 0x340a_c5e3);
    FedFrom(0x340a_c5e3, digits, 5, 0xf68d_2c9e);
  }

  lemma LastDigits(digits: seq<bv8>)
    requires |digits| == 9 && digits[6] == 0x37 && digits[7] == 0x38 && digits[8] == 0x39
    ensures CRC.Feed(0xf68d_2c9e, digits[6..]) == CRC.Feed(0x340b_c6d9, digits[9..])
  {
    FedFrom(0xf68d_2c9e, digits, 6, 0xaffc_9660);
    FedFrom(0xaffc_9660, digits, 7, 0x651f_2550);
    FedFrom(0x651f_2550, digits, 8, 0x340b_c6d9);
  }

  /** Changing exactly one byte always changes the checksum. */
  lemma SingleByteChangeDetected(a: seq<bv8>, i: nat, value: bv8)
    requires i < |a| && a[i] != value
    ensures Checksum(a[i := value]) != Checksum(a)
  {
    BurstErrorsDetected(a[i := value], a, i, i + 1);
  }
}
