/**
 The text form of password hashes: `hash_password` and `verify_password` of backend/app/services/auth.py. The key
 derivation (section 5.2 of RFC 8018) is any function `kdf` of a password, a salt and an iteration count.
 */
module Password {
  import opened Wrappers
  import opened Text
  import Decimal

  type Kdf = (string, seq<byte>, nat) -> seq<byte>

  const HASH_ALGORITHM := "pbkdf2_sha256"
  const UNUSABLE_PASSWORD_HASH := "unusable$bootstrap-required"
  const MIN_ITERATIONS := 100000

  // ---------- Hexadecimal ----------

  function HexDigit(x: int): (c: char)
    requires 0 <= x < 16
    ensures HexValue(c) == Some(x) && c > '$'
  {
    if x < 10 then '0' + x as char else 'a' + (x - 10) as char
  }

  function HexValue(c: char): (r: Option<int>)
    ensures r.Some? ==> 0 <= r.value < 16
  {
    if '0' <= c <= '9' then Some((c - '0') as int)
    else if 'a' <= c <= 'f' then Some((c - 'a') as int + 10)
    else if 'A' <= c <= 'F' then Some((c - 'A') as int + 10)
    else None
  }

  /** `bytes.hex()` */
  function ToHex(bytes: seq<byte>): string {
    if bytes == [] then "" else [HexDigit(bytes[0] as int / 16), HexDigit(bytes[0] as int % 16)] + ToHex(bytes[1..])
  }

  /** `bytes.fromhex`, which skips ASCII white space between bytes */
  function FromHex(s: string): Option<seq<byte>> {
    if s == "" then Some([])
    else if s[0] == ' ' || '\t' <= s[0] <= '\r' then FromHex(s[1..])
    else if |s| == 1 then None
    else
      var high, low, rest := HexValue(s[0]), HexValue(s[1]), FromHex(s[2..]);
      if high.None? || low.None? || rest.None? then None
      else Some([(high.value * 16 + low.value) as byte] + rest.value)
  }

  lemma HexPair(b: byte, text: string, rest: seq<byte>)
    requires FromHex(text) == Some(rest)
    ensures FromHex([HexDigit(b as int / 16), HexDigit(b as int % 16)] + text) == Some([b] + rest)
  {
    hide HexDigit, HexValue;
    var s, x := [HexDigit(b as int / 16), HexDigit(b as int % 16)] + text, b as int;
    assert s[2..] == text;
    assert x / 16 * 16 + x % 16 == x;
  }

  lemma {:induction false} HexRoundTrip(bytes: seq<byte>)
    ensures FromHex(ToHex(bytes)) == Some(bytes) && '$' !in ToHex(bytes)
  {
    if bytes != [] {
      HexRoundTrip(bytes[1..]);
      hide HexDigit, HexValue, FromHex;
      HexPair(bytes[0], ToHex(bytes[1..]), bytes[1..]);
      assert [bytes[0]] + bytes[1..] == bytes;
    }
  }

  // ---------- Integers ----------

  /** Digits, with single underscores between them. */
  predicate IsNumeral(s: string) {
    && s != "" && Decimal.IsDigit(s[0]) && Decimal.IsDigit(s[|s| - 1])
    && forall k | 0 <= k < |s| :: Decimal.IsDigit(s[k]) || (s[k] == '_' && k + 1 < |s| && Decimal.IsDigit(s[k + 1]))
  }

  function WithoutUnderscores(s: string): (t: string)
    ensures (forall k | 0 <= k < |s| :: Decimal.IsDigit(s[k]) || s[k] == '_') ==> Decimal.AllDigits(t)
  {
    if s == "" then ""
    else WithoutUnderscores(s[..|s| - 1]) + if s[|s| - 1] == '_' then "" else [s[|s| - 1]]
  }

  function ReadNumeral(s: string): Option<nat> {
    if IsNumeral(s) then Some(Decimal.Read(WithoutUnderscores(s))) else None
  }

  /** `int(s)`, for ASCII digits */
  function ReadInt(s: string): Option<int> {
    var t := Strip(s);
    var signed := t != "" && (t[0] == '+' || t[0] == '-');
    var n := ReadNumeral(if signed then t[1..] else t);
    if n.None? then None
    else
      var magnitude: int := n.value;
      Some(if signed && t[0] == '-' then -magnitude else magnitude)
  }

  lemma {:induction false} DigitsHaveNoUnderscores(s: string)
    requires Decimal.AllDigits(s)
    ensures WithoutUnderscores(s) == s
  {
    if s != "" {
      DigitsHaveNoUnderscores(s[..|s| - 1]);
    }
  }

  lemma IntRoundTrip(n: nat)
    ensures ReadInt(Decimal.Print(n)) == Some(n) && '$' !in Decimal.Print(n)
  {
    hide Strip, WithoutUnderscores, Decimal.Print, Decimal.Read;
    var s := Decimal.Print(n);
    assert Decimal.IsDigit(s[0]) && Decimal.IsDigit(s[|s| - 1]);
    StripOfStripped(s);
    DigitsHaveNoUnderscores(s);
    Decimal.ReadPrint(n);
  }

  // ---------- Splitting ----------

  /** `s.split(c, limit)` */
  function Split(s: string, c: char, limit: nat): (parts: seq<string>)
    ensures 1 <= |parts| <= limit + 1
    decreases limit
  {
    var i := IndexOf(s, c);
    if limit == 0 || i == |s| then [s] else [s[..i]] + Split(s[i + 1..], c, limit - 1)
  }

  lemma SplitFirst(head: string, c: char, rest: string, limit: nat)
    requires c !in head && limit > 0
    ensures Split(head + [c] + rest, c, limit) == [head] + Split(rest, c, limit - 1)
  {
    var s := head + [c] + rest;
    assert s[|head|] == c;
    forall k | 0 <= k < |head| ensures s[k] != c {
      assert s[k] == head[k];
    }
    assert IndexOf(s, c) == |head|;
    assert s[..|head|] == head && s[|head| + 1..] == rest;
  }

  lemma SplitNone(s: string, c: char, limit: nat)
    requires c !in s
    ensures Split(s, c, limit) == [s]
  {
  }

  lemma SplitFour(a: string, b: string, c: string, d: string)
    requires '$' !in a && '$' !in b && '$' !in c && '$' !in d
    ensures Split(a + "$" + b + "$" + c + "$" + d, '$', 3) == [a, b, c, d]
  {
    hide Split;
    SplitNone(d, '$', 0);
    SplitFirst(c, '$', d, 1);
    var cd := c + ['$'] + d;
    SplitFirst(b, '$', cd, 2);
    var bcd := b + ['$'] + cd;
    SplitFirst(a, '$', bcd, 3);
    assert a + "$" + b + "$" + c + "$" + d == a + ['$'] + bcd;
  }

  // ---------- Hashes ----------

  function Iterations(setting: int): nat {
    if setting < MIN_ITERATIONS then MIN_ITERATIONS else setting
  }

  function Encoded(iterations: nat, salt: seq<byte>, digest: seq<byte>): string {
    HASH_ALGORITHM + "$" + Decimal.Print(iterations) + "$" + ToHex(salt) + "$" + ToHex(digest)
  }

  /** `hash_password`, for the salt that the system drew */
  function HashPassword(kdf: Kdf, password: string, salt: seq<byte>, setting: int): string {
    var iterations := Iterations(setting);
    Encoded(iterations, salt, kdf(password, salt, iterations))
  }

  datatype Verdict = Accepted | Refused | Raised

  /** `verify_password`; the key derivation raises for less than one iteration. */
  function VerifyPassword(kdf: Kdf, password: string, encoded: string): Verdict {
    var parts := Split(encoded, '$', 3);
    if |parts| != 4 || parts[0] != HASH_ALGORITHM then Refused
    else
      var iterations, salt, expected := ReadInt(parts[1]), FromHex(parts[2]), FromHex(parts[3]);
      if iterations.None? || salt.None? || expected.None? then Refused
      else if iterations.value < 1 then Raised
      else if kdf(password, salt.value, iterations.value) == expected.value then Accepted
      else Refused
  }

  /** The four fields are found again. */
  lemma SplitEncoded(iterations: nat, salt: seq<byte>, digest: seq<byte>)
    ensures Split(Encoded(iterations, salt, digest), '$', 3) ==
      [HASH_ALGORITHM, Decimal.Print(iterations), ToHex(salt), ToHex(digest)]
  {
    hide Split, ToHex, Decimal.Print;
    HexRoundTrip(salt);
    HexRoundTrip(digest);
    IntRoundTrip(iterations);
    assert '$' !in HASH_ALGORITHM;
    SplitFour(HASH_ALGORITHM, Decimal.Print(iterations), ToHex(salt), ToHex(digest));
  }

  /**
   A password is accepted against the hash of another one if and only if they have the same derived key; never
   is there an exception.
   */
  lemma VerifyHashed(kdf: Kdf, password: string, other: string, salt: seq<byte>, setting: int)
    ensures VerifyPassword(kdf, other, HashPassword(kdf, password, salt, setting)) ==
      if kdf(other, salt, Iterations(setting)) == kdf(password, salt, Iterations(setting)) then Accepted else Refused
  {
    var iterations := Iterations(setting);
    var digest := kdf(password, salt, iterations);
    SplitEncoded(iterations, salt, digest);
    HexRoundTrip(salt);
    HexRoundTrip(digest);
    IntRoundTrip(iterations);
  }

  /** Different iteration counts, salts or digests are printed differently. */
  lemma EncodedIsInjective(iterations: nat, salt: seq<byte>, digest: seq<byte>, iterations': nat, salt': seq<byte>,
                           digest': seq<byte>)
    requires Encoded(iterations, salt, digest) == Encoded(iterations', salt', digest')
    ensures iterations == iterations' && salt == salt' && digest == digest'
  {
    SplitEncoded(iterations, salt, digest);
    SplitEncoded(iterations', salt', digest');
    HexRoundTrip(salt);
    HexRoundTrip(salt');
    HexRoundTrip(digest);
    HexRoundTrip(digest');
    IntRoundTrip(iterations);
    IntRoundTrip(iterations');
  }

  lemma SplitTwo(a: string, b: string)
    requires '$' !in a && '$' !in b
    ensures Split(a + "$" + b, '$', 3) == [a, b]
  {
    hide Split;
    SplitNone(b, '$', 2);
    SplitFirst(a, '$', b, 3);
  }

  lemma RefusesWithoutFourFields(kdf: Kdf, password: string, encoded: string)
    requires |Split(encoded, '$', 3)| != 4
    ensures VerifyPassword(kdf, password, encoded) == Refused
  {
  }

  /** The placeholder of the owner that the migration makes up refuses every password. */
  lemma PlaceholderRefuses(kdf: Kdf, password: string)
    ensures VerifyPassword(kdf, password, UNUSABLE_PASSWORD_HASH) == Refused
  {
    hide Split, VerifyPassword;
    var a, b := "unusable", "bootstrap-required";
    SplitTwo(a, b);
    assert UNUSABLE_PASSWORD_HASH == a + "$" + b;
    RefusesWithoutFourFields(kdf, password, a + "$" + b);
  }
}
