/** The credential hasher: bcrypt as used through `hashSync` and `compareSync`.
    bcrypt hashes the UTF-8 encoding of the password and reads at most its
    first 72 bytes. A hash is modelled symbolically as the cost, the salt and
    the digest of those bytes; the digest is a collision-free image of them. */
module Hasher {

  /** The cost factor every call site passes to `hashSync`. */
  const Rounds: nat := 10

  /** bcrypt reads no more than this many bytes of the encoded password. */
  const MaxKeyLength: nat := 72

  /** Salts are drawn at random by `hashSync`; here they are supplied by the caller. */
  type Salt = nat

  type Byte = b: int | 0 <= b < 256

  // ---------------------------------------------------------------------------
  // The UTF-8 encoding of the password

  /** The number of bytes of a UTF-8 sequence, read off its lead byte. */
  function SequenceLength(lead: Byte): nat {
    if lead < 0x80 then 1 else if lead < 0xE0 then 2 else if lead < 0xF0 then 3 else 4
  }

  /** The UTF-8 encoding of one character (a Unicode scalar value). */
  function Utf8Char(c: char): (e: seq<Byte>)
    ensures 1 <= |e| <= 4
    ensures |e| == SequenceLength(e[0])
  {
    var n := c as int;
    if n < 0x80 then [n]
    else if n < 0x800 then [0xC0 + n / 0x40, 0x80 + n % 0x40]
    else if n < 0x10000 then [0xE0 + n / 0x1000, 0x80 + (n / 0x40) % 0x40, 0x80 + n % 0x40]
    else [0xF0 + n / 0x40000, 0x80 + (n / 0x1000) % 0x40, 0x80 + (n / 0x40) % 0x40, 0x80 + n % 0x40]
  }

  /** The code point a UTF-8 sequence of one to four bytes stands for. */
  function DecodeChar(e: seq<Byte>): int
    requires 1 <= |e| <= 4
  {
    var b0: int := e[0];
    if |e| == 1 then b0
    else
      var b1: int := e[1];
      if |e| == 2 then (b0 - 0xC0) * 0x40 + (b1 - 0x80)
      else
        var b2: int := e[2];
        if |e| == 3 then (b0 - 0xE0) * 0x1000 + (b1 - 0x80) * 0x40 + (b2 - 0x80)
        else
          var b3: int := e[3];
          (b0 - 0xF0) * 0x40000 + (b1 - 0x80) * 0x1000 + (b2 - 0x80) * 0x40 + (b3 - 0x80)
  }

  /** Decoding undoes the encoding of a character. */
  lemma DecodeUtf8Char(c: char)
    ensures DecodeChar(Utf8Char(c)) == c as int
  {
    var n := c as int;
    if n >= 0x10000 {
      assert n == (n / 0x40000) * 0x40000 + ((n / 0x1000) % 0x40) * 0x1000 + ((n / 0x40) % 0x40) * 0x40 + n % 0x40;
    } else if n >= 0x800 {
      assert n == (n / 0x1000) * 0x1000 + ((n / 0x40) % 0x40) * 0x40 + n % 0x40;
    }
  }

  /** The bytes `stringToBytes` produces for a password. */
  function Utf8(s: string): (e: seq<Byte>)
    ensures |s| <= |e| <= 4 * |s|
  {
    if s == [] then [] else Utf8Char(s[0]) + Utf8(s[1..])
  }

  /** Encoding a concatenation concatenates the encodings. */
  lemma {:induction false} Utf8Append(s: string, t: string)
    ensures Utf8(s + t) == Utf8(s) + Utf8(t)
  {
    if s != [] {
      assert (s + t)[0] == s[0] && (s + t)[1..] == s[1..] + t;
      Utf8Append(s[1..], t);
      calc {
        Utf8(s + t);
        Utf8Char(s[0]) + Utf8(s[1..] + t);
        Utf8Char(s[0]) + (Utf8(s[1..]) + Utf8(t));
        (Utf8Char(s[0]) + Utf8(s[1..])) + Utf8(t);
      }
    } else {
      assert s + t == t;
    }
  }

  /** Two passwords with the same UTF-8 encoding are the same password. */
  lemma {:induction false} Utf8Injective(p: string, q: string)
    requires Utf8(p) == Utf8(q)
    ensures p == q
  {
    if p != [] && q != [] {
      var ep, eq := Utf8Char(p[0]), Utf8Char(q[0]);
      assert ep[0] == Utf8(p)[0] && eq[0] == Utf8(q)[0];
      var n := |ep|;
      assert |eq| == n;
      assert ep == Utf8(p)[..n] && eq == Utf8(q)[..n];
      DecodeUtf8Char(p[0]);
      DecodeUtf8Char(q[0]);
      assert p[0] == q[0];
      assert Utf8(p[1..]) == Utf8(p)[n..] == Utf8(q)[n..] == Utf8(q[1..]);
      Utf8Injective(p[1..], q[1..]);
      assert p == [p[0]] + p[1..] && q == [q[0]] + q[1..];
    }
  }

  /** ASCII text encodes as one byte per character, each its code point. */
  lemma {:induction false} Utf8OfAscii(s: string)
    requires forall k :: 0 <= k < |s| ==> s[k] as int < 0x80
    ensures |Utf8(s)| == |s|
    ensures forall k :: 0 <= k < |s| ==> Utf8(s)[k] == s[k] as int
  {
    if s != [] {
      Utf8OfAscii(s[1..]);
      assert forall k :: 1 <= k < |s| ==> s[k] == s[1..][k - 1];
    }
  }

  /** Text of characters from U+0080 to U+07FF (Latin supplements, Greek,
      Cyrillic, Hebrew, Arabic, ...) encodes as two bytes per character. */
  lemma {:induction false} Utf8OfTwoByteText(s: string)
    requires forall k :: 0 <= k < |s| ==> 0x80 <= s[k] as int < 0x800
    ensures |Utf8(s)| == 2 * |s|
  {
    if s != [] {
      Utf8OfTwoByteText(s[1..]);
    }
  }

  // ---------------------------------------------------------------------------
  // Hashing and verifying

  /** The digest of a key; two keys have equal digests only if they are equal. */
  datatype Digest = Digest(key: seq<Byte>)

  /** A stored password hash. */
  datatype PasswordHash = Bcrypt(rounds: nat, salt: Salt, digest: Digest)

  /** The bytes of a password that bcrypt feeds into the hash: the first
      MaxKeyLength bytes of its UTF-8 encoding. */
  function Key(password: string): (k: seq<Byte>)
    ensures |k| <= MaxKeyLength
    ensures k <= Utf8(password)
    ensures |Utf8(password)| <= MaxKeyLength ==> k == Utf8(password)
    ensures |Utf8(password)| > MaxKeyLength ==> k == Utf8(password)[..MaxKeyLength]
    ensures |password| <= MaxKeyLength / 4 ==> k == Utf8(password)
  {
    var e := Utf8(password);
    if |e| <= MaxKeyLength then e else e[..MaxKeyLength]
  }

  /** `bcrypt.hashSync(password, Rounds)` with the given salt. */
  function Hash(password: string, salt: Salt): (h: PasswordHash)
    ensures h.rounds == Rounds && h.salt == salt
    ensures Verify(password, h)
  {
    Bcrypt(Rounds, salt, Digest(Key(password)))
  }

  /** `bcrypt.compareSync(password, h)`: rehash the candidate with the cost and
      salt stored in `h` and compare the result with `h`. Since the cost and
      salt are taken from `h`, only the digests are compared. */
  predicate Verify(password: string, h: PasswordHash): (b: bool)
    ensures b <==> h.digest.key == Key(password)
  {
    Bcrypt(h.rounds, h.salt, Digest(Key(password))) == h
  }

  /** A hash accepts exactly the passwords whose key equals the key of the
      password it was made from, whatever the salt. */
  lemma VerifyHashIffSameKey(p: string, q: string, salt: Salt)
    ensures Verify(q, Hash(p, salt)) <==> Key(q) == Key(p)
  {
  }

  /** For passwords whose encoding fits bcrypt's key, a hash accepts no
      password other than the one it was made from. */
  lemma ShortPasswordsDoNotCollide(p: string, q: string, salt: Salt)
    requires |Utf8(p)| <= MaxKeyLength && |Utf8(q)| <= MaxKeyLength
    ensures Verify(q, Hash(p, salt)) <==> q == p
  {
    if Verify(q, Hash(p, salt)) {
      Utf8Injective(p, q);
    }
  }

  /** Two passwords whose encodings agree on their first MaxKeyLength bytes
      verify against each other's hash, however they differ afterwards. */
  lemma LongPasswordsCollide(p: string, q: string, salt: Salt)
    requires |Utf8(p)| >= MaxKeyLength && |Utf8(q)| >= MaxKeyLength
    requires Utf8(p)[..MaxKeyLength] == Utf8(q)[..MaxKeyLength]
    ensures Verify(q, Hash(p, salt))
  {
  }

  /** Two long passwords whose encodings differ within their first
      MaxKeyLength bytes do not verify against each other's hash. */
  lemma LongPasswordsDifferingEarlyDoNotCollide(p: string, q: string, salt: Salt)
    requires |Utf8(p)| >= MaxKeyLength && |Utf8(q)| >= MaxKeyLength
    requires Utf8(p)[..MaxKeyLength] != Utf8(q)[..MaxKeyLength]
    ensures !Verify(q, Hash(p, salt))
  {
  }

  /** The limit counts bytes, not characters: forty Cyrillic letters fill 80
      bytes, so a hash of them also accepts a different password of forty
      characters that shares only its first thirty-six. */
  lemma MultiByteTextCollidesBelowSeventyTwoCharacters(salt: Salt)
    ensures var p, q := seq(40, _ => 'ж'), seq(36, _ => 'ж') + "zzzz";
      p != q && |p| <= MaxKeyLength && |q| <= MaxKeyLength && Verify(q, Hash(p, salt))
  {
    var a, b := seq(36, _ => 'ж'), seq(4, _ => 'ж');
    var p, q := seq(40, _ => 'ж'), a + "zzzz";
    assert p == a + b;
    assert p[36] != q[36];
    Utf8OfTwoByteText(a);
    Utf8Append(a, b);
    Utf8Append(a, "zzzz");
    assert Key(p) == Utf8(a) == Key(q);
  }
}
