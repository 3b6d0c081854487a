/**
 Verification of one NTAG 424 DNA tap (nfc/sun.py): the encrypted-PICC profile of NXP AN12196.
 AES-CBC decryption and AES-CMAC are uninterpreted; hexadecimal text is already decoded, None where
 it was not hexadecimal.
 */
module Sun {
  import opened Results

  type Bytes = seq<Byte>

  datatype Crypto = Crypto(decrypt: (Bytes, Bytes) -> Bytes, cmac: (Bytes, Bytes) -> Bytes)

  datatype SunError = BadKeys | NotHexadecimal | BadLengths | WrongProfile | WrongTag | BadMac

  datatype SunMessage = SunMessage(uid: Bytes, counter: nat)

  const COUNTER_LIMIT := 0x1_000000

  ghost predicate BlockCipher(c: Crypto) {
    && (forall k, v :: |c.decrypt(k, v)| == |v|)
    && (forall k, v :: |c.cmac(k, v)| == 16)
  }

  /** Bits 7 and 6 of the tag byte set (UID and counter mirrored), low nibble 7 (UID length). */
  predicate Profile(tag: Byte) {
    tag / 0x80 % 2 == 1 && tag / 0x40 % 2 == 1 && tag % 0x10 == 7
  }

  function Truncated(mac: Bytes): Bytes
    requires |mac| == 16
  {
    [mac[1], mac[3], mac[5], mac[7], mac[9], mac[11], mac[13], mac[15]]
  }

  function SessionVector(uid: Bytes, counter: Bytes): Bytes {
    [0x3C, 0xC3, 0x00, 0x01, 0x00, 0x80] + uid + counter
  }

  function FromLittleEndian(b: Bytes): nat
    requires |b| == 3
  {
    var low: int, middle: int, high: int := b[0], b[1], b[2];
    low + 256 * middle + 65536 * high
  }

  function ToLittleEndian(n: nat): Bytes
    requires n < COUNTER_LIMIT
  {
    var rest := n / 256;
    assert rest < 0x10000;
    [n % 256, rest % 256, rest / 256]
  }

  function MacOf(c: Crypto, fileKey: Bytes, uid: Bytes, counter: Bytes): Bytes
    requires BlockCipher(c)
  {
    Truncated(c.cmac(c.cmac(fileKey, SessionVector(uid, counter)), []))
  }

  function Verify(c: Crypto, picc: Option<Bytes>, mac: Option<Bytes>, metaKey: Bytes, fileKey: Bytes, expected: Bytes)
    : Result<SunMessage, SunError>
    requires BlockCipher(c)
  {
    if |metaKey| != 16 || |fileKey| != 16 then Err(BadKeys)
    else if picc.None? || mac.None? then Err(NotHexadecimal)
    else if |picc.value| != 16 || |mac.value| != 8 then Err(BadLengths)
    else
      var plain := c.decrypt(metaKey, picc.value);
      var uid, counter := plain[1..8], plain[8..11];
      if !Profile(plain[0]) then Err(WrongProfile)
      else if uid != expected then Err(WrongTag)
      else if MacOf(c, fileKey, uid, counter) != mac.value then Err(BadMac)
      else Ok(SunMessage(uid, FromLittleEndian(counter)))
  }

  lemma {:induction false} DigitsUnique(x: int, y: int, z: int)
    requires 0 <= x < 256 && 0 <= y < 256 && 0 <= z < 256
    ensures var n := x + 256 * y + 65536 * z;
            n % 256 == x && n / 256 % 256 == y && n / 256 / 256 == z
  {
    var rest := (x + 256 * y + 65536 * z) / 256;
    assert rest == y + 256 * z;
  }

  /** Counter bytes and counter numbers determine each other. */
  lemma {:induction false} LittleEndianInverse(n: nat)
    requires n < COUNTER_LIMIT
    ensures FromLittleEndian(ToLittleEndian(n)) == n
  {
  }

  lemma {:induction false} LittleEndianUnique(b: Bytes)
    requires |b| == 3
    ensures FromLittleEndian(b) < COUNTER_LIMIT && ToLittleEndian(FromLittleEndian(b)) == b
  {
    DigitsUnique(b[0], b[1], b[2]);
  }

  lemma {:induction false} ProfileBytes(tag: Byte)
    ensures Profile(tag) <==> tag in {0xC7, 0xD7, 0xE7, 0xF7}
  {
    var high: int, low: int := tag / 0x10, tag % 0x10;
    assert tag == 0x10 * high + low && 0 <= high < 0x10;
    assert tag / 0x80 == high / 8 && tag / 0x40 == high / 4;
  }

  /**
   What a genuine tag with these keys puts in its URL when its read counter is `counter`: encrypted,
   a profile byte with both mirror bits and UID length 7, the UID and the counter, lowest byte first;
   beside it every second byte of the MAC under a session key, whose vector is a fixed prefix, the
   UID and the counter.
   */
  ghost predicate Genuine(c: Crypto, metaKey: Bytes, fileKey: Bytes, uid: Bytes, counter: nat, picc: Bytes, mac: Bytes)
    requires BlockCipher(c)
  {
    && |picc| == 16 && |mac| == 8
    && var plain := c.decrypt(metaKey, picc);
       var session := c.cmac(fileKey, [0x3C, 0xC3, 0x00, 0x01, 0x00, 0x80] + uid + plain[8..11]);
       && plain[0] in {0xC7, 0xD7, 0xE7, 0xF7}
       && plain[1..8] == uid
       && (plain[8] as int) + 0x100 * (plain[9] as int) + 0x1_0000 * (plain[10] as int) == counter
       && forall i :: 0 <= i < 8 ==> mac[i] == c.cmac(session, [])[2 * i + 1]
  }

  lemma {:induction false} TruncatedIff(full: Bytes, mac: Bytes)
    requires |full| == 16 && |mac| == 8
    ensures Truncated(full) == mac <==> forall i :: 0 <= i < 8 ==> mac[i] == full[2 * i + 1]
  {
    if forall i :: 0 <= i < 8 ==> mac[i] == full[2 * i + 1] {
      assert mac[0] == full[1] && mac[1] == full[3] && mac[2] == full[5] && mac[3] == full[7];
      assert mac[4] == full[9] && mac[5] == full[11] && mac[6] == full[13] && mac[7] == full[15];
    }
  }

  /**
   With AES-128 keys, verification accepts exactly the genuine messages of the expected tag, and
   returns the counter they carry.
   */
  lemma {:induction false} VerifyAcceptsGenuine(c: Crypto, metaKey: Bytes, fileKey: Bytes, expected: Bytes,
                                                picc: Bytes, mac: Bytes, counter: nat)
    requires BlockCipher(c) && |metaKey| == 16 && |fileKey| == 16
    ensures Genuine(c, metaKey, fileKey, expected, counter, picc, mac)
            <==> Verify(c, Some(picc), Some(mac), metaKey, fileKey, expected) == Ok(SunMessage(expected, counter))
  {
    if |picc| == 16 && |mac| == 8 {
      var plain := c.decrypt(metaKey, picc);
      ProfileBytes(plain[0]);
      assert plain[8..11] == [plain[8], plain[9], plain[10]];
      TruncatedIff(c.cmac(c.cmac(fileKey, SessionVector(expected, plain[8..11])), []), mac);
    }
  }

  /** Why a message is refused before it is decrypted; nothing else is. */
  lemma {:induction false} RefusedUnread(c: Crypto, picc: Option<Bytes>, mac: Option<Bytes>,
                                         metaKey: Bytes, fileKey: Bytes, expected: Bytes)
    requires BlockCipher(c)
    ensures var r := Verify(c, picc, mac, metaKey, fileKey, expected);
            var keyed := |metaKey| == 16 && |fileKey| == 16;
            && (r == Err(BadKeys) <==> !keyed)
            && (r == Err(NotHexadecimal) <==> keyed && (picc == None || mac == None))
            && (r == Err(BadLengths) <==>
                  keyed && picc != None && mac != None && (|picc.value|, |mac.value|) != (16, 8))
  {
  }

  /** Every accepted counter is a 24-bit number, as NfcTag requires of the counter it stores. */
  lemma {:induction false} VerifiedCounterFits(c: Crypto, picc: Option<Bytes>, mac: Option<Bytes>,
                                               metaKey: Bytes, fileKey: Bytes, expected: Bytes)
    requires BlockCipher(c) && Verify(c, picc, mac, metaKey, fileKey, expected).Ok?
    ensures Verify(c, picc, mac, metaKey, fileKey, expected).value.counter < COUNTER_LIMIT
    ensures Verify(c, picc, mac, metaKey, fileKey, expected).value.uid == expected
  {
    LittleEndianUnique(c.decrypt(metaKey, picc.value)[8..11]);
  }

  /** What the tag encrypts: its profile byte, UID and counter, filled up with anything. */
  function PiccData(profile: Byte, uid: Bytes, counter: nat, filling: Bytes): Bytes
    requires counter < COUNTER_LIMIT
  {
    [profile] + uid + ToLittleEndian(counter) + filling
  }

  /** With a cipher that decrypts what it encrypted, what the tag sends is accepted, at its own counter. */
  lemma {:induction false} TagMessageAccepted(c: Crypto, encrypt: (Bytes, Bytes) -> Bytes, metaKey: Bytes,
                                              fileKey: Bytes,
                                              profile: Byte, uid: Bytes, counter: nat, filling: Bytes)
    requires BlockCipher(c) && counter < COUNTER_LIMIT && |metaKey| == 16 && |fileKey| == 16
    requires Profile(profile) && |uid| == 7 && |filling| == 5
    requires c.decrypt(metaKey, encrypt(metaKey, PiccData(profile, uid, counter, filling)))
            == PiccData(profile, uid, counter, filling)
    ensures Verify(c, Some(encrypt(metaKey, PiccData(profile, uid, counter, filling))),
                   Some(MacOf(c, fileKey, uid, ToLittleEndian(counter))), metaKey, fileKey, uid)
            == Ok(SunMessage(uid, counter))
  {
    var plain := PiccData(profile, uid, counter, filling);
    var picc := encrypt(metaKey, plain);
    assert |picc| == |c.decrypt(metaKey, picc)| == 16;
    assert plain[1..8] == uid && plain[8..11] == ToLittleEndian(counter);
    LittleEndianInverse(counter);
  }

  /** For one ciphertext at most one MAC is accepted, so no accepted message can be altered in its MAC alone. */
  lemma {:induction false} OneMacPerCiphertext(c: Crypto, metaKey: Bytes, fileKey: Bytes, uid: Bytes, picc: Bytes,
                                               mac: Bytes, other: Bytes)
    requires BlockCipher(c) && mac != other
    requires Verify(c, Some(picc), Some(mac), metaKey, fileKey, uid).Ok?
    ensures Verify(c, Some(picc), Some(other), metaKey, fileKey, uid).Err?
  {
  }
}
