/**
 * Abstract stand-ins for the two cryptographic libraries the service calls:
 * bcrypt for passwords and signed JSON Web Tokens (RFC 7519) for sessions.
 * Only their observable behaviour is kept: a digest matches exactly the
 * passwords that share the 72-byte key of the one it was made from, and a
 * session token verifies exactly when it carries a genuine signature and its expiry claim lies in the future.
 */
module Crypto {

  /** One byte of the UTF-8 encoding bcrypt hashes. */
  type byte = x: int | 0 <= x < 256

  /** The UTF-8 encoding of one Unicode scalar value (section 3 of RFC 3629). */
  function Utf8Char(c: char): (r: seq<byte>)
    ensures 1 <= |r| <= 4
    ensures c != 0 as char ==> forall k :: 0 <= k < |r| ==> r[k] != 0
  {
    var n := c as int;
    if n < 0x80 then [n]
    else if n < 0x800 then [0xC0 + n / 0x40, 0x80 + n % 0x40]
    else if n < 0x1_0000 then [0xE0 + n / 0x1000, 0x80 + n / 0x40 % 0x40, 0x80 + n % 0x40]
    else [0xF0 + n / 0x4_0000, 0x80 + n / 0x1000 % 0x40, 0x80 + n / 0x40 % 0x40, 0x80 + n % 0x40]
  }

  /** The UTF-8 encoding of a string. */
  function Utf8(s: string): seq<byte> {
    if |s| == 0 then [] else Utf8(s[..|s| - 1]) + Utf8Char(s[|s| - 1])
  }

  /** Encoding a concatenation concatenates the encodings. */
  lemma {:induction false} Utf8Append(p: string, q: string)
    ensures Utf8(p + q) == Utf8(p) + Utf8(q)
    decreases |q|
  {
    if |q| > 0 {
      var q' := q[..|q| - 1];
      assert (p + q)[..|p + q| - 1] == p + q';
      Utf8Append(p, q');
    } else {
      assert p + q == p;
    }
  }

  /** Blowfish's key schedule reads 72 key bytes. */
  const KeyLength: int := 72

  /**
   * The key bcrypt derives from the bytes of a password: the bytes followed
   * by a NUL byte, repeated cyclically, and cut to the first 72 bytes.
   */
  function KeyOf(b: seq<byte>): (k: seq<byte>)
    ensures |k| == KeyLength
  {
    var z := b + [0];
    seq(KeyLength, i requires 0 <= i < KeyLength => z[i % |z|])
  }

  /** The key of a password's UTF-8 encoding. Passwords with the same key are indistinguishable to bcrypt. */
  function Key(password: string): seq<byte> {
    KeyOf(Utf8(password))
  }

  /** `bcrypt.compare` cannot tell `p` from `q`. */
  predicate SameKey(p: string, q: string) {
    Key(p) == Key(q)
  }

  /**
   * A bcrypt digest. The key is kept only so that `Matches` can be defined;
   * no operation of the model reads it otherwise. Salt and cost factor do
   * not change which passwords match, so they are not modelled.
   */
  datatype Digest = Bcrypt(key: seq<byte>)

  /** `bcrypt.compare(password, digest)`. */
  predicate Matches(password: string, d: Digest) {
    Key(password) == d.key
  }

  /**
   * `bcrypt.hash(password, salt)`: the digest matches exactly the passwords
   * bcrypt cannot tell from this one.
   */
  function Hash(password: string): (d: Digest)
    ensures Matches(password, d)
    ensures forall p :: Matches(p, d) <==> SameKey(p, password)
  {
    Bcrypt(Key(password))
  }

  /** Within the first pass over the bytes and their NUL, the key is the bytes themselves. */
  lemma KeyOfAt(b: seq<byte>, i: nat)
    requires i < KeyLength && i <= |b|
    ensures KeyOf(b)[i] == if i < |b| then b[i] else 0
  {
    assert i % (|b| + 1) == i;
  }

  /** Bytes past the 72nd never reach the key. */
  lemma KeyOfIgnoresTail(a: seq<byte>, c: seq<byte>)
    requires |a| >= KeyLength
    ensures KeyOf(a + c) == KeyOf(a)
  {
    forall i | 0 <= i < KeyLength
      ensures KeyOf(a + c)[i] == KeyOf(a)[i]
    {
      KeyOfAt(a, i);
      KeyOfAt(a + c, i);
    }
  }

  /** Below 72 bytes, NUL-free byte strings that differ have different keys. */
  lemma KeyOfShortDistinct(a: seq<byte>, b: seq<byte>)
    requires |a| < KeyLength && |b| < KeyLength
    requires forall k :: 0 <= k < |a| ==> a[k] != 0
    requires forall k :: 0 <= k < |b| ==> b[k] != 0
    requires a != b
    ensures KeyOf(a) != KeyOf(b)
  {
    var i: nat;
    if |a| == |b| {
      i :| i < |a| && a[i] != b[i];
    } else if |a| < |b| {
      i := |a|;
    } else {
      i := |b|;
    }
    KeyOfAt(a, i);
    KeyOfAt(b, i);
  }

  /**
   * Only the first 72 bytes of a password count: a password at least that
   * long matches the digest of any extension of it.
   */
  lemma LongPasswordTruncated(p: string, q: string)
    requires |Utf8(p)| >= KeyLength
    ensures SameKey(p + q, p)
    ensures Matches(p + q, Hash(p))
  {
    Utf8Append(p, q);
    KeyOfIgnoresTail(Utf8(p), Utf8(q));
  }

  /**
   * Below 72 bytes and free of NUL bytes, passwords with different
   * encodings have different keys, so each digest matches only its own
   * password's encoding.
   */
  lemma ShortPasswordsDistinct(p: string, q: string)
    requires |Utf8(p)| < KeyLength && |Utf8(q)| < KeyLength
    requires forall k :: 0 <= k < |Utf8(p)| ==> Utf8(p)[k] != 0
    requires forall k :: 0 <= k < |Utf8(q)| ==> Utf8(q)[k] != 0
    requires Utf8(p) != Utf8(q)
    ensures !SameKey(p, q)
    ensures !Matches(q, Hash(p))
  {
    KeyOfShortDistinct(Utf8(p), Utf8(q));
  }

  /** Lifetime of a session token, in seconds (`expiresIn: "1h"`). */
  const SessionLifetime: int := 3600

  /**
   * A decoded session token. `genuine` says whether the signature verifies
   * against the server secret; any other cookie string (a forgery, a token
   * signed with another secret, plain garbage) is a session with
   * `genuine == false`. `iat` and `exp` are in whole seconds, as in RFC 7519.
   */
  datatype Session = Session(id: nat, username: string, iat: int, exp: int, genuine: bool)

  /** Whole seconds since the epoch for a millisecond clock (`Math.floor(now / 1000)`). */
  function Seconds(now: int): int {
    now / 1000
  }

  /**
   * `jwt.verify`: the signature must be genuine and the clock, in whole
   * seconds, must be strictly before the expiry claim.
   */
  predicate Verify(s: Session, now: int) {
    s.genuine && Seconds(now) < s.exp
  }

  /** `jwt.sign({id, username}, secret, {expiresIn: "1h"})` at clock `now` (milliseconds). */
  function Sign(id: nat, username: string, now: int): (s: Session)
    ensures s.id == id && s.username == username && s.genuine
    ensures s.exp == s.iat + SessionLifetime
    ensures s.iat * 1000 <= now < s.iat * 1000 + 1000
    ensures Verify(s, now)
  {
    Session(id, username, Seconds(now), Seconds(now) + SessionLifetime, true)
  }

  /**
   * A freshly signed session stays valid for the rest of the second it was
   * issued in plus one hour, and not a millisecond longer.
   */
  lemma SignedSessionWindow(id: nat, username: string, issued: int, now: int)
    ensures Verify(Sign(id, username, issued), now)
        <==> now < (Seconds(issued) + SessionLifetime) * 1000
  {
    var k := Seconds(issued) + SessionLifetime;
    if now < k * 1000 {
      assert now / 1000 * 1000 <= now;
    } else {
      assert now / 1000 * 1000 > now - 1000;
    }
  }
}
