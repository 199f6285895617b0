/**
 * src/crypto/cryptography.c: DES in 64-bit cipher feedback mode, the way the
 * repository drives it.  The block function is a parameter; every result below holds
 * for all of them.
 */
module Cryptography {
  import opened Bytes

  /** A keyed block function: key schedule input, then block input. */
  type Cipher = (Block, Block) -> Block

  /** What masks the next byte, given the ciphertext so far. */
  type Mask = seq<Byte> -> Byte

  // ---------------------------------------------------------------- specification

  function Xor(x: Byte, k: Byte): Byte {
    Byte(x.bits ^ k.bits)
  }

  /** Bit by bit: a bit is set where the two differ. */
  lemma XorBits(x: Byte, k: Byte, bit: bv8)
    requires bit != 0 && bit & (bit - 1) == 0
    ensures Xor(x, k).bits & bit != 0 <==> (x.bits & bit != 0) != (k.bits & bit != 0)
  {
  }

  /** Cipher feedback over any mask: each output byte joins what the next mask depends on. */
  function CfbEncrypt(mask: Mask, p: seq<Byte>): (c: seq<Byte>)
    ensures |c| == |p|
  {
    if p == [] then []
    else
      var c := CfbEncrypt(mask, p[..|p| - 1]);
      c + [Xor(p[|p| - 1], mask(c))]
  }

  function CfbDecrypt(mask: Mask, c: seq<Byte>): (p: seq<Byte>)
    ensures |p| == |c|
  {
    if c == [] then []
    else
      var d := c[..|c| - 1];
      CfbDecrypt(mask, d) + [Xor(c[|c| - 1], mask(d))]
  }

  /** Block j of the feedback chain: the initial value, then each ciphertext block. */
  function Feedback(iv: Block, c: seq<Byte>, j: nat): Block
    requires 8 * j <= |c|
  {
    if j == 0 then iv else c[8 * (j - 1)..8 * j]
  }

  /** The key stream byte behind c, where the key is also the initial feedback value. */
  function Keystream(des: Cipher, key: Block, c: seq<Byte>): Byte {
    des(key, Feedback(key, c, |c| / 8))[|c| % 8]
  }

  function DesMask(des: Cipher, key: Block): Mask {
    c => Keystream(des, key, c)
  }

  /** DES_set_odd_parity on one byte: the low bit makes the number of ones odd. */
  function OddParity(b: bv8): bv8 {
    var x := b ^ (b >> 4);
    var y := x ^ (x >> 2);
    var z := y ^ (y >> 1);
    if (z ^ b) & 1 == 0 then b | 1 else b & 0xFE
  }

  predicate OddOnes(b: bv8) {
    (b ^ (b >> 1) ^ (b >> 2) ^ (b >> 3) ^ (b >> 4) ^ (b >> 5) ^ (b >> 6) ^ (b >> 7)) & 1 == 1
  }

  lemma ParityIsOdd(b: bv8)
    ensures OddOnes(OddParity(b)) && OddParity(b) & 0xFE == b & 0xFE
  {
  }

  lemma OneParity(b: bv8, x: bv8, y: bv8)
    requires OddOnes(x) && x & 0xFE == b & 0xFE && OddOnes(y) && y & 0xFE == b & 0xFE
    ensures x == y
  {
  }

  function KeyBlock(secret: Block): Block {
    seq(8, i requires 0 <= i < 8 => Byte(OddParity(secret[i].bits)))
  }

  /** The adjusted secret is the key, and the initial feedback value with it. */
  function Encrypt(des: Cipher, secret: Block, p: seq<Byte>): (c: seq<Byte>)
    ensures |c| == |p|
  {
    CfbEncrypt(DesMask(des, KeyBlock(secret)), p)
  }

  function Decrypt(des: Cipher, secret: Block, c: seq<Byte>): (p: seq<Byte>)
    ensures |p| == |c|
  {
    CfbDecrypt(DesMask(des, KeyBlock(secret)), c)
  }

  // -------------------------------------------------------------------- the key

  /** A DES key made from the secret: the low bit of each byte gives way to the parity. */
  predicate Adjusts(secret: Block, key: Block) {
    forall i :: 0 <= i < 8 ==> OddOnes(key[i].bits) && key[i].bits & 0xFE == secret[i].bits & 0xFE
  }

  lemma KeyAdjusts(secret: Block)
    ensures Adjusts(secret, KeyBlock(secret))
  {
    forall i | 0 <= i < 8
      ensures OddOnes(KeyBlock(secret)[i].bits) && KeyBlock(secret)[i].bits & 0xFE == secret[i].bits & 0xFE
    {
      ParityIsOdd(secret[i].bits);
    }
  }

  /** There is exactly one for each secret. */
  lemma OneKey(secret: Block) returns (key: Block)
    ensures Adjusts(secret, key) && forall k :: Adjusts(secret, k) ==> k == key
  {
    key := KeyBlock(secret);
    KeyAdjusts(secret);
    forall k | Adjusts(secret, k)
      ensures k == key
    {
      SameKey(secret, k, key);
    }
  }

  lemma SameKey(secret: Block, k: Block, l: Block)
    requires Adjusts(secret, k) && Adjusts(secret, l)
    ensures k == l
  {
    forall i | 0 <= i < 8
      ensures k[i] == l[i]
    {
      OneParity(secret[i].bits, k[i].bits, l[i].bits);
    }
  }

  /** Both directions use that key. */
  lemma KeyUsed(des: Cipher, secret: Block, key: Block, s: seq<Byte>)
    requires Adjusts(secret, key)
    ensures Encrypt(des, secret, s) == CfbEncrypt(DesMask(des, key), s)
    ensures Decrypt(des, secret, s) == CfbDecrypt(DesMask(des, key), s)
  {
    KeyAdjusts(secret);
    SameKey(secret, KeyBlock(secret), key);
  }

  // ------------------------------------------------------------------- properties

  lemma {:induction false} EncryptPrefix(mask: Mask, p: seq<Byte>, k: nat)
    requires k <= |p|
    ensures CfbEncrypt(mask, p)[..k] == CfbEncrypt(mask, p[..k])
  {
    if k == |p| {
      assert p[..k] == p;
    } else {
      var d := p[..|p| - 1];
      EncryptPrefix(mask, d, k);
      assert d[..k] == p[..k];
      assert CfbEncrypt(mask, p)[..|d|] == CfbEncrypt(mask, d);
      assert CfbEncrypt(mask, p)[..|d|][..k] == CfbEncrypt(mask, p)[..k];
    }
  }

  lemma {:induction false} DecryptPrefix(mask: Mask, c: seq<Byte>, k: nat)
    requires k <= |c|
    ensures CfbDecrypt(mask, c)[..k] == CfbDecrypt(mask, c[..k])
  {
    if k == |c| {
      assert c[..k] == c;
    } else {
      var d := c[..|c| - 1];
      DecryptPrefix(mask, d, k);
      assert d[..k] == c[..k];
      assert CfbDecrypt(mask, c)[..|d|] == CfbDecrypt(mask, d);
      assert CfbDecrypt(mask, c)[..|d|][..k] == CfbDecrypt(mask, c)[..k];
    }
  }

  lemma EncryptAppend(mask: Mask, p: seq<Byte>, x: Byte)
    ensures
      var c := CfbEncrypt(mask, p);
      CfbEncrypt(mask, p + [x]) == c + [Xor(x, mask(c))]
  {
    assert (p + [x])[..|p|] == p;
  }

  lemma DecryptAppend(mask: Mask, c: seq<Byte>, x: Byte)
    ensures CfbDecrypt(mask, c + [x]) == CfbDecrypt(mask, c) + [Xor(x, mask(c))]
  {
    assert (c + [x])[..|c|] == c;
  }

  lemma MaskedByte(mask: Mask, p: seq<Byte>, i: nat)
    requires i < |p|
    ensures
      var c := CfbEncrypt(mask, p);
      c[i] == Xor(p[i], mask(c[..i]))
  {
    var c := CfbEncrypt(mask, p);
    EncryptPrefix(mask, p, i);
    EncryptPrefix(mask, p, i + 1);
    EncryptAppend(mask, p[..i], p[i]);
    TakeNext(p, i);
    assert c[i] == c[..i + 1][i];
  }

  /** Only the last whole block before position i takes part in its mask. */
  lemma KeystreamBlock(des: Cipher, key: Block, c: seq<Byte>, i: nat)
    requires i <= |c|
    ensures Keystream(des, key, c[..i]) == des(key, Feedback(key, c, i / 8))[i % 8]
  {
    var j := i / 8;
    if j > 0 {
      assert c[..i][8 * (j - 1)..8 * j] == c[8 * (j - 1)..8 * j];
    }
  }

  /** The block function is applied to the eight bytes one block back. */
  lemma MaskIs(des: Cipher, key: Block, c: seq<Byte>, i: nat)
    requires i < |c|
    ensures
      var back: Block := if i < 8 then key else c[8 * (i / 8) - 8..8 * (i / 8)];
      DesMask(des, key)(c[..i]) == des(key, back)[i % 8]
  {
    KeystreamBlock(des, key, c, i);
  }

  /**
   * The defining equation of 64-bit cipher feedback (NIST SP 800-38A, section 6.3):
   * block j of the ciphertext is block j of the plaintext masked by the block function
   * of ciphertext block j - 1, or of the key itself for the first block.
   */
  lemma EncryptEquation(des: Cipher, secret: Block, key: Block, p: seq<Byte>, i: nat)
    requires Adjusts(secret, key) && i < |p|
    ensures
      var c := Encrypt(des, secret, p);
      var back: Block := if i < 8 then key else c[8 * (i / 8) - 8..8 * (i / 8)];
      c[i] == Xor(p[i], des(key, back)[i % 8])
  {
    KeyUsed(des, secret, key, p);
    var c := CfbEncrypt(DesMask(des, key), p);
    MaskedByte(DesMask(des, key), p, i);
    MaskIs(des, key, c, i);
  }

  /** And of its inverse: the same mask, from the ciphertext received. */
  lemma DecryptEquation(des: Cipher, secret: Block, key: Block, c: seq<Byte>, i: nat)
    requires Adjusts(secret, key) && i < |c|
    ensures
      var back: Block := if i < 8 then key else c[8 * (i / 8) - 8..8 * (i / 8)];
      Decrypt(des, secret, c)[i] == Xor(c[i], des(key, back)[i % 8])
  {
    KeyUsed(des, secret, key, c);
    UnmaskedByte(DesMask(des, key), c, i);
    MaskIs(des, key, c, i);
  }

  lemma UnmaskedByte(mask: Mask, c: seq<Byte>, i: nat)
    requires i < |c|
    ensures CfbDecrypt(mask, c)[i] == Xor(c[i], mask(c[..i]))
  {
    DecryptPrefix(mask, c, i + 1);
    DecryptAppend(mask, c[..i], c[i]);
    TakeNext(c, i);
    assert CfbDecrypt(mask, c)[i] == CfbDecrypt(mask, c)[..i + 1][i];
  }

  lemma MaskTwice(x: Byte, k: Byte)
    ensures Xor(Xor(x, k), k) == x
  {
  }

  lemma DecryptEncryptStep(mask: Mask, p: seq<Byte>, x: Byte)
    requires CfbDecrypt(mask, CfbEncrypt(mask, p)) == p
    ensures CfbDecrypt(mask, CfbEncrypt(mask, p + [x])) == p + [x]
  {
    var c := CfbEncrypt(mask, p);
    EncryptAppend(mask, p, x);
    DecryptAppend(mask, c, Xor(x, mask(c)));
    MaskTwice(x, mask(c));
  }

  lemma EncryptDecryptStep(mask: Mask, c: seq<Byte>, x: Byte)
    requires CfbEncrypt(mask, CfbDecrypt(mask, c)) == c
    ensures CfbEncrypt(mask, CfbDecrypt(mask, c + [x])) == c + [x]
  {
    DecryptAppend(mask, c, x);
    EncryptAppend(mask, CfbDecrypt(mask, c), Xor(x, mask(c)));
    MaskTwice(x, mask(c));
  }

  lemma {:induction false} DecryptInvertsEncrypt(mask: Mask, p: seq<Byte>)
    ensures CfbDecrypt(mask, CfbEncrypt(mask, p)) == p
  {
    if p != [] {
      DecryptInvertsEncrypt(mask, p[..|p| - 1]);
      DecryptEncryptStep(mask, p[..|p| - 1], p[|p| - 1]);
      LastApart(p);
    }
  }

  lemma {:induction false} EncryptInvertsDecrypt(mask: Mask, c: seq<Byte>)
    ensures CfbEncrypt(mask, CfbDecrypt(mask, c)) == c
  {
    if c != [] {
      EncryptInvertsDecrypt(mask, c[..|c| - 1]);
      EncryptDecryptStep(mask, c[..|c| - 1], c[|c| - 1]);
      LastApart(c);
    }
  }

  /**
   * A receiver that has only the first n ciphertext bytes, whatever follows them in
   * its memory, gets the first n plaintext bytes.
   */
  lemma TruncatedDecrypt(des: Cipher, secret: Block, p: seq<Byte>, got: seq<Byte>, n: nat)
    requires n <= |p| && n <= |got|
    requires got[..n] == Encrypt(des, secret, p)[..n]
    ensures Decrypt(des, secret, got)[..n] == p[..n]
  {
    var mask := DesMask(des, KeyBlock(secret));
    DecryptPrefix(mask, got, n);
    DecryptPrefix(mask, Encrypt(des, secret, p), n);
    DecryptInvertsEncrypt(mask, p);
  }

  /** A C string behind characters that hold no NUL. */
  lemma CStrBehind(a: CString, b: seq<Byte>)
    ensures CStr(a + b) == a + CStr(b)
  {
    var n := CStrLen(b);
    assert (a + b)[..|a| + n] == a + b[..n];
    CStrLenIs(a + b, |a| + n);
  }

  /**
   * What the receiver reads behind the bytes it was sent: the byte behind the payload,
   * decrypted with it, then its own memory behind the result, up to a NUL.
   */
  predicate Continues(des: Cipher, secret: Block, sent: seq<Byte>, stray: Byte, behind: seq<Byte>, rest: seq<Byte>) {
    CStr([Xor(stray, Keystream(des, KeyBlock(secret), sent))] + behind) == rest
  }

  lemma StrayByte(des: Cipher, secret: Block, sent: seq<Byte>, stray: Byte)
    ensures Decrypt(des, secret, sent + [stray])
         == Decrypt(des, secret, sent) + [Xor(stray, Keystream(des, KeyBlock(secret), sent))]
  {
    DecryptAppend(DesMask(des, KeyBlock(secret)), sent, stray);
  }

  /** The plaintext behind n right ciphertext bytes and a stray one, read with what is behind it. */
  lemma ReadBehind(des: Cipher, secret: Block, sent: seq<Byte>, stray: Byte, behind: seq<Byte>, a: CString)
    requires Decrypt(des, secret, sent) == a
    ensures CStr(Decrypt(des, secret, sent + [stray]) + behind)
         == a + CStr([Xor(stray, Keystream(des, KeyBlock(secret), sent))] + behind)
  {
    var x := Xor(stray, Keystream(des, KeyBlock(secret), sent));
    StrayByte(des, secret, sent, stray);
    assert (a + [x]) + behind == a + ([x] + behind);
    CStrBehind(a, [x] + behind);
  }

  /** More bytes than the string has: it is there with its NUL. */
  lemma UncutArrives(des: Cipher, secret: Block, p: seq<Byte>, got: seq<Byte>, behind: seq<Byte>, t: CString)
    requires ReadsAs(p, t) && |got| > |t| && got[..|t| + 1] == Encrypt(des, secret, p)[..|t| + 1]
    ensures CStr(Decrypt(des, secret, got) + behind) == t
  {
    var out := Decrypt(des, secret, got);
    TruncatedDecrypt(des, secret, p, got, |t| + 1);
    assert (out + behind)[..|t| + 1] == out[..|t| + 1] == p[..|t| + 1] == t + [NUL];
    ReadsAsLength(out + behind, t);
  }

  /** No more bytes than the string has: they give its beginning. */
  lemma CutDecrypts(des: Cipher, secret: Block, p: seq<Byte>, n: nat, t: CString)
    requires ReadsAs(p, t) && n <= |t|
    ensures Decrypt(des, secret, Encrypt(des, secret, p)[..n]) == t[..n]
  {
    var sent := Encrypt(des, secret, p)[..n];
    assert sent[..n] == sent;
    TruncatedDecrypt(des, secret, p, sent, n);
    assert Decrypt(des, secret, sent)[..n] == Decrypt(des, secret, sent);
    assert p[..n] == (t + [NUL])[..n] == t[..n];
  }

  lemma RestOf(t: seq<Byte>, n: nat, rest: seq<Byte>)
    requires n <= |t|
    ensures t[..n] + rest == t <==> rest == t[n..]
  {
    assert t == t[..n] + t[n..];
    assert (t[..n] + rest)[n..] == rest;
  }

  /**
   * Exactly when a cut ciphertext still carries the C string t that starts the
   * plaintext p, where n of its bytes were sent: if n exceeds |t|, or if what the
   * receiver reads behind those bytes happens to be the rest of t.
   */
  lemma CutCarriesString(des: Cipher, secret: Block, p: seq<Byte>, tail: seq<Byte>, n: nat,
                         stray: Byte, behind: seq<Byte>, t: CString)
    requires ReadsAs(p, t)
    requires n <= |p| + |tail|
    ensures
      var sent := (Encrypt(des, secret, p) + tail)[..n];
      CStr(Decrypt(des, secret, sent + [stray]) + behind) == t
      <==> n > |t| || Continues(des, secret, sent, stray, behind, t[n..])
  {
    var c := Encrypt(des, secret, p);
    var sent := (c + tail)[..n];
    if n > |t| {
      assert (sent + [stray])[..|t| + 1] == c[..|t| + 1];
      UncutArrives(des, secret, p, sent + [stray], behind, t);
    } else {
      assert sent == c[..n];
      CutDecrypts(des, secret, p, n, t);
      ReadBehind(des, secret, sent, stray, behind, t[..n]);
      RestOf(t, n, CStr([Xor(stray, Keystream(des, KeyBlock(secret), sent))] + behind));
    }
  }

  // ------------------------------------------------------------------------ code

  /** The register after l bytes: a finished block, or a fresh one overwritten up to n. */
  ghost predicate RegisterHolds(des: Cipher, key: Block, c: seq<Byte>, reg: seq<Byte>, n: nat)
  {
    && |reg| == 8
    && n == |c| % 8
    && (n == 0 ==> reg == Feedback(key, c, |c| / 8))
    && (n != 0 ==>
          var j := |c| / 8;
          && reg[..n] == c[8 * j..]
          && reg[n..] == des(key, Feedback(key, c, j))[n..])
  }

  /** One register update: if the register is used up, refill it; then mask with entry n. */
  lemma RegisterStep(des: Cipher, key: Block, c: seq<Byte>, reg: seq<Byte>, n: nat,
                     full: seq<Byte>, x: Byte)
    requires RegisterHolds(des, key, c, reg, n)
    requires full == if n == 0 then des(key, reg) else reg
    ensures |full| == 8 && full[n] == Keystream(des, key, c)
    ensures RegisterHolds(des, key, c + [x], full[n := x], (n + 1) % 8)
  {
    var l := |c|;
    var j := l / 8;
    var next := full[n := x];
    assert full[n..] == des(key, Feedback(key, c, j))[n..];
    assert full[n] == full[n..][0] == des(key, Feedback(key, c, j))[n];
    if n < 7 {
      assert (l + 1) / 8 == j;
      assert Feedback(key, c + [x], j) == Feedback(key, c, j);
      assert next[..n + 1] == (c + [x])[8 * j..];
      assert next[n + 1..] == full[n..][1..];
    } else {
      assert (l + 1) / 8 == j + 1;
      assert next == c[8 * j..] + [x] == (c + [x])[8 * j..8 * (j + 1)];
    }
  }

  /** The block function applied to the register where it stands. */
  method Refill(des: Cipher, key: Block, reg: array<Byte>)
    requires reg.Length == 8
    modifies reg
    ensures reg[..] == des(key, old(reg[..]))
  {
    var block := des(key, reg[..]);
    forall i | 0 <= i < 8 {
      reg[i] := block[i];
    }
  }

  method CopyBlock(b: Block) returns (reg: array<Byte>)
    ensures fresh(reg) && reg[..] == b
  {
    reg := new Byte[8](i requires 0 <= i < 8 => b[i]);
  }

  /** What DES_cfb64_encrypt makes of its input, by its last argument. */
  ghost function Cfb(mask: Mask, s: seq<Byte>, encrypting: bool): (r: seq<Byte>)
    ensures |r| == |s|
  {
    if encrypting then CfbEncrypt(mask, s) else CfbDecrypt(mask, s)
  }

  /** The ciphertext side of the same: the output when encrypting, the input when decrypting. */
  ghost function Fed(mask: Mask, s: seq<Byte>, encrypting: bool): (r: seq<Byte>)
    ensures |r| == |s|
  {
    if encrypting then CfbEncrypt(mask, s) else s
  }

  lemma CfbAppend(mask: Mask, s: seq<Byte>, x: Byte, encrypting: bool)
    ensures
      var y := Xor(x, mask(Fed(mask, s, encrypting)));
      && Cfb(mask, s + [x], encrypting) == Cfb(mask, s, encrypting) + [y]
      && Fed(mask, s + [x], encrypting) == Fed(mask, s, encrypting) + [if encrypting then y else x]
  {
    if encrypting {
      EncryptAppend(mask, s, x);
    } else {
      DecryptAppend(mask, s, x);
    }
  }

  /** One step of the feedback loop: the output byte, and the register with a byte put back. */
  method MaskByte(des: Cipher, key: Block, reg: array<Byte>, n: nat, input: Byte, encrypting: bool, ghost c: seq<Byte>)
    returns (output: Byte)
    requires reg.Length == 8 && RegisterHolds(des, key, c, reg[..], n)
    modifies reg
    ensures output == Xor(input, Keystream(des, key, c))
    ensures RegisterHolds(des, key, c + [if encrypting then output else input], reg[..], (n + 1) % 8)
  {
    ghost var was := reg[..];
    if n == 0 {
      Refill(des, key, reg);
    }
    ghost var full := reg[..];
    output := Xor(input, reg[n]);
    reg[n] := if encrypting then output else input;
    assert reg[..] == full[n := if encrypting then output else input];
    RegisterStep(des, key, c, was, n, full, if encrypting then output else input);
  }

  /** MaskByte against the specification: s is the input before this byte. */
  method CfbByte(des: Cipher, key: Block, reg: array<Byte>, n: nat, input: Byte, encrypting: bool, ghost s: seq<Byte>)
    returns (output: Byte)
    requires reg.Length == 8 && RegisterHolds(des, key, Fed(DesMask(des, key), s, encrypting), reg[..], n)
    modifies reg
    ensures Cfb(DesMask(des, key), s + [input], encrypting) == Cfb(DesMask(des, key), s, encrypting) + [output]
    ensures RegisterHolds(des, key, Fed(DesMask(des, key), s + [input], encrypting), reg[..], (n + 1) % 8)
  {
    output := MaskByte(des, key, reg, n, input, encrypting, Fed(DesMask(des, key), s, encrypting));
    CfbAppend(DesMask(des, key), s, input, encrypting);
  }

  /** DES_cfb64_encrypt over the first size bytes, with the register at its initial value. */
  method Cfb64(des: Cipher, key: Block, reg: array<Byte>, msg: seq<Byte>, size: nat, encrypting: bool, res: array<Byte>)
    requires size <= |msg| && res.Length == size && reg != res
    requires reg.Length == 8 && reg[..] == key
    modifies reg, res
    ensures res[..] == Cfb(DesMask(des, key), msg[..size], encrypting)
  {
    var l, n := 0, 0;
    while l < size
      invariant l <= size && n == l % 8
      invariant res[..l] == Cfb(DesMask(des, key), msg[..l], encrypting)
      invariant RegisterHolds(des, key, Fed(DesMask(des, key), msg[..l], encrypting), reg[..], n)
    {
      ghost var was := res[..l];
      var output := CfbByte(des, key, reg, n, msg[l], encrypting, msg[..l]);
      res[l] := output;
      assert res[..l] == was;
      TakeNext(res[..], l);
      TakeNext(msg, l);
      assert res[..l + 1] == was + [output];
      l, n := l + 1, (n + 1) % 8;
    }
    assert res[..] == res[..l];
  }

  /** symmetrical_encrypt: writes size + 1 bytes, masking through an in-place register. */
  method SymmetricalEncrypt(des: Cipher, secret: Block, msg: seq<Byte>, size: nat) returns (res: array<Byte>)
    requires size < |msg|
    ensures fresh(res) && res[..] == Encrypt(des, secret, msg[..size + 1])
  {
    res := new Byte[size + 1];
    var reg := CopyBlock(KeyBlock(secret));
    Cfb64(des, KeyBlock(secret), reg, msg, size + 1, true, res);
  }

  /** symmetrical_decrypt: reads size + 1 input bytes, one more than its caller passes. */
  method SymmetricalDecrypt(des: Cipher, secret: Block, msg: seq<Byte>, size: nat) returns (res: array<Byte>)
    requires size < |msg|
    ensures fresh(res) && res[..] == Decrypt(des, secret, msg[..size + 1])
  {
    res := new Byte[size + 1];
    var reg := CopyBlock(KeyBlock(secret));
    Cfb64(des, KeyBlock(secret), reg, msg, size + 1, false, res);
  }
}
