/** PBKDF2 (section 5.2 of RFC 8018) over an abstract 32-octet pseudorandom function, and the encoded
    password hash built on it. */
module Pbkdf2 {
  import opened Common
  import Text

  type Bytes = seq<bv8>

  const HLEN := 32
  const ITERATIONS := 210_000
  const KEYLEN := 32

  type Prf = (Bytes, Bytes) -> Bytes

  ghost predicate Sized(prf: Prf) { forall k, m :: |prf(k, m)| == HLEN }

  /** INT(i) as numbers, most significant first. The source converts through a 32-bit integer. */
  function OctetValues(i: nat): (o: seq<nat>)
    ensures |o| == 4 && forall k :: 0 <= k < 4 ==> o[k] < 256
  {
    [i / 256 / 256 / 256 % 256, i / 256 / 256 % 256, i / 256 % 256, i % 256]
  }

  function Octets(i: nat): (o: Bytes)
    ensures |o| == 4
  {
    seq(4, k requires 0 <= k < 4 => OctetValues(i)[k] as bv8)
  }

  lemma ModOfSum(q: nat, x: nat)
    requires x < 0x1_0000_0000
    ensures (q * 0x1_0000_0000 + x) % 0x1_0000_0000 == x
  {
  }

  lemma OneDigit(i: nat)
    ensures i == 256 * (i / 256) + i % 256
  {
  }

  /** Up to 2^32 - 1 blocks the octets name the block; further out they would wrap. */
  lemma {:induction false} OctetsNameTheBlock(i: nat)
    ensures var o := OctetValues(i);
      i % 0x1_0000_0000 == o[0] * 0x100_0000 + o[1] * 0x1_0000 + o[2] * 0x100 + o[3]
  {
    var a, b, c := i / 256, i / 256 / 256, i / 256 / 256 / 256;
    OneDigit(i);
    OneDigit(a);
    OneDigit(b);
    OneDigit(c);
    ModOfSum(c / 256, c % 256 * 0x100_0000 + b % 256 * 0x1_0000 + a % 256 * 0x100 + i % 256);
  }

  function Xor(a: Bytes, b: Bytes): (r: Bytes)
    requires |a| == |b|
    ensures |r| == |a| && forall k :: 0 <= k < |a| ==> r[k] == a[k] ^ b[k]
  {
    seq(|a|, k requires 0 <= k < |a| => a[k] ^ b[k])
  }

  // ------------------------------------------------------------------ section 5.2 of RFC 8018

  /** U_n of block `i`. */
  function U(prf: Prf, p: Bytes, s: Bytes, i: nat, n: nat): (r: Bytes)
    requires n >= 1 && Sized(prf)
    ensures |r| == HLEN
  {
    if n == 1 then prf(p, s + Octets(i)) else prf(p, U(prf, p, s, i, n - 1))
  }

  /** U_1 \xor ... \xor U_n. */
  function F(prf: Prf, p: Bytes, s: Bytes, n: nat, i: nat): (r: Bytes)
    requires n >= 1 && Sized(prf)
    ensures |r| == HLEN
  {
    if n == 1 then U(prf, p, s, i, 1) else Xor(F(prf, p, s, n - 1, i), U(prf, p, s, i, n))
  }

  /** T_1 || ... || T_l. */
  function Blocks(prf: Prf, p: Bytes, s: Bytes, c: nat, l: nat): (r: Bytes)
    requires c >= 1 && Sized(prf)
    ensures |r| == l * HLEN
  {
    if l == 0 then [] else Blocks(prf, p, s, c, l - 1) + F(prf, p, s, c, l)
  }

  function BlockCount(dkLen: nat): (l: nat)
    ensures l * HLEN >= dkLen && (l > 0 ==> (l - 1) * HLEN < dkLen)
  {
    (dkLen + HLEN - 1) / HLEN
  }

  function DK(prf: Prf, p: Bytes, s: Bytes, c: nat, dkLen: nat): (r: Bytes)
    requires c >= 1 && Sized(prf)
    ensures |r| == dkLen
  {
    Blocks(prf, p, s, c, BlockCount(dkLen))[..dkLen]
  }

  /** Octet `k` of the key belongs to block `k / 32 + 1`, whatever the length asked for. */
  lemma {:induction false} OctetOfBlocks(prf: Prf, p: Bytes, s: Bytes, c: nat, l: nat, k: nat)
    requires c >= 1 && Sized(prf) && k < l * HLEN
    ensures Blocks(prf, p, s, c, l)[k] == F(prf, p, s, c, k / HLEN + 1)[k % HLEN]
  {
    if k < (l - 1) * HLEN {
      OctetOfBlocks(prf, p, s, c, l - 1, k);
    } else {
      assert k / HLEN == l - 1 && k % HLEN == k - (l - 1) * HLEN;
    }
  }

  /** A shorter key is a prefix of a longer one. */
  lemma ShorterKeyIsPrefix(prf: Prf, p: Bytes, s: Bytes, c: nat, short: nat, long: nat)
    requires c >= 1 && Sized(prf) && short <= long
    ensures DK(prf, p, s, c, short) == DK(prf, p, s, c, long)[..short]
  {
    forall k | 0 <= k < short ensures DK(prf, p, s, c, short)[k] == DK(prf, p, s, c, long)[k] {
      OctetOfBlocks(prf, p, s, c, BlockCount(short), k);
      OctetOfBlocks(prf, p, s, c, BlockCount(long), k);
    }
  }

  /** Each octet of the key is the octet RFC 8018 names. */
  lemma KeyOctet(prf: Prf, p: Bytes, s: Bytes, c: nat, dkLen: nat, k: nat)
    requires c >= 1 && Sized(prf) && k < dkLen
    ensures DK(prf, p, s, c, dkLen)[k] == F(prf, p, s, c, k / HLEN + 1)[k % HLEN]
  {
    OctetOfBlocks(prf, p, s, c, BlockCount(dkLen), k);
  }

  // ------------------------------------------------------------------ octet by octet

  /** The exclusive or of some octets. */
  function XorAll(column: seq<bv8>): bv8 {
    if column == [] then 0 else column[0] ^ XorAll(column[1..])
  }

  lemma {:induction false} XorAllSnoc(column: seq<bv8>, x: bv8)
    ensures XorAll(column + [x]) == XorAll(column) ^ x
  {
    if column == [] {
      assert column + [x] == [x];
    } else {
      assert (column + [x])[1..] == column[1..] + [x];
      XorAllSnoc(column[1..], x);
    }
  }

  function Values(o: Bytes): (v: seq<nat>)
    ensures |v| == |o| && forall k :: 0 <= k < |o| ==> v[k] == o[k] as nat
  {
    seq(|o|, k requires 0 <= k < |o| => o[k] as nat)
  }

  /** The octets say `i` modulo 2^32, the most significant of the four first. */
  ghost predicate IsInt(o: Bytes, i: nat) {
    |o| == 4 && Says(Values(o), i)
  }

  ghost predicate Says(v: seq<nat>, i: nat)
    requires |v| == 4
  {
    v[0] * 0x100_0000 + v[1] * 0x1_0000 + v[2] * 0x100 + v[3] == i % 0x1_0000_0000
  }

  lemma {:induction false} ByteOf(v: nat) returns (x: bv8)
    requires v < 256
    ensures x as nat == v
  {
    x := 0;
    if v > 0 {
      x := ByteOf(v - 1);
      x := x + 1;
    }
  }

  lemma ByteBack(v: nat)
    requires v < 256
    ensures (v as bv8) as nat == v
  {
    var x := ByteOf(v);
    assert (x as nat) as bv8 == x;
  }

  lemma OctetsSay(i: nat)
    ensures Values(Octets(i)) == OctetValues(i) && IsInt(Octets(i), i)
  {
    var o, v := Octets(i), OctetValues(i);
    forall k | 0 <= k < 4 ensures Values(o)[k] == v[k] {
      ByteBack(v[k]);
    }
    assert Values(o) == v;
    ValuesSay(i);
  }

  lemma ValuesSay(i: nat)
    ensures Says(OctetValues(i), i)
  {
    OctetsNameTheBlock(i);
  }

  lemma SameDigits(v: seq<nat>, w: seq<nat>, i: nat)
    requires |v| == 4 && |w| == 4 && forall k :: 0 <= k < 4 ==> v[k] < 256 && w[k] < 256
    requires Says(v, i) && Says(w, i)
    ensures v == w
  {
    assert v[0] == w[0] && v[1] == w[1] && v[2] == w[2] && v[3] == w[3];
  }

  lemma SameOctet(x: bv8, y: bv8)
    requires x as nat == y as nat
    ensures x == y
  {
    assert (x as nat) as bv8 == x && (y as nat) as bv8 == y;
  }

  lemma OctetIsSmall(x: bv8)
    ensures x as nat < 256
  {
  }

  /** Only those four octets say it. */
  lemma OctetsAreTheOnes(o: Bytes, i: nat)
    requires IsInt(o, i)
    ensures o == Octets(i)
  {
    var q := Octets(i);
    OctetsSay(i);
    var v, w := Values(o), Values(q);
    forall k | 0 <= k < 4 ensures v[k] < 256 && w[k] < 256 {
      OctetIsSmall(o[k]);
      OctetIsSmall(q[k]);
    }
    SameDigits(v, w, i);
    forall k | 0 <= k < 4 ensures o[k] == q[k] {
      assert v[k] == w[k];
      SameOctet(o[k], q[k]);
    }
  }

  /** The chain of section 5.2: the function applied to the salt and the block number, then over and over to
      its own result. */
  ghost predicate IsChain(prf: Prf, p: Bytes, s: Bytes, i: nat, us: seq<Bytes>) {
    && us != [] && (exists o :: IsInt(o, i) && us[0] == prf(p, s + o))
    && (forall m :: 1 <= m < |us| ==> us[m] == prf(p, us[m - 1]))
  }

  function Column(us: seq<Bytes>, k: nat): (column: seq<bv8>)
    requires forall m :: 0 <= m < |us| ==> k < |us[m]|
    ensures |column| == |us| && forall m :: 0 <= m < |us| ==> column[m] == us[m][k]
  {
    seq(|us|, m requires 0 <= m < |us| => us[m][k])
  }

  lemma {:induction false} ChainIsU(prf: Prf, p: Bytes, s: Bytes, i: nat, us: seq<Bytes>, m: nat)
    requires Sized(prf) && IsChain(prf, p, s, i, us) && m < |us|
    ensures us[m] == U(prf, p, s, i, m + 1)
  {
    if m == 0 {
      var o :| IsInt(o, i) && us[0] == prf(p, s + o);
      OctetsAreTheOnes(o, i);
    } else {
      ChainIsU(prf, p, s, i, us, m - 1);
    }
  }

  lemma {:induction false} FIsTheXor(prf: Prf, p: Bytes, s: Bytes, i: nat, us: seq<Bytes>, n: nat, k: nat)
    requires Sized(prf) && IsChain(prf, p, s, i, us) && 1 <= n <= |us| && k < HLEN
    requires forall m :: 0 <= m < |us| ==> |us[m]| == HLEN
    ensures F(prf, p, s, n, i)[k] == XorAll(Column(us[..n], k))
  {
    ChainIsU(prf, p, s, i, us, n - 1);
    if n == 1 {
      assert Column(us[..1], k) == [us[0][k]];
    } else {
      FIsTheXor(prf, p, s, i, us, n - 1, k);
      assert Column(us[..n], k) == Column(us[..n - 1], k) + [us[n - 1][k]];
      XorAllSnoc(Column(us[..n - 1], k), us[n - 1][k]);
    }
  }

  /** Each octet of the key is the exclusive or of one column of the chain its position names. */
  lemma KeyOctetIsTheXor(prf: Prf, p: Bytes, s: Bytes, c: nat, dkLen: nat, k: nat, us: seq<Bytes>)
    requires c >= 1 && Sized(prf) && k < dkLen && |us| == c && IsChain(prf, p, s, k / 32 + 1, us)
    ensures forall m :: 0 <= m < c ==> |us[m]| == 32
    ensures |DK(prf, p, s, c, dkLen)| == dkLen && DK(prf, p, s, c, dkLen)[k] == XorAll(Column(us, k % 32))
  {
    forall m | 0 <= m < c ensures |us[m]| == HLEN { ChainIsU(prf, p, s, k / HLEN + 1, us, m); }
    KeyOctet(prf, p, s, c, dkLen, k);
    FIsTheXor(prf, p, s, k / HLEN + 1, us, c, k % HLEN);
    assert us[..c] == us;
  }

  // ------------------------------------------------------------------ the nested loops

  /** One block: `t` is accumulated in place. */
  method Block(prf: Prf, password: Bytes, salt: Bytes, iter: int, block: nat) returns (t: array<bv8>)
    requires Sized(prf)
    ensures fresh(t) && t[..] == F(prf, password, salt, if iter < 1 then 1 else iter, block)
  {
    var u := prf(password, salt + Octets(block));
    t := new bv8[|u|](i requires 0 <= i < |u| => u[i]);
    assert t[..] == u;
    var n: nat := 2;
    while n <= iter
      invariant n >= 2 && (n - 1 <= iter || n == 2)
      invariant t.Length == HLEN && fresh(t)
      invariant u == U(prf, password, salt, block, n - 1)
      invariant t[..] == F(prf, password, salt, n - 1, block)
    {
      u := prf(password, u);
      XorInto(t, u);
      n := n + 1;
    }
  }

  method XorInto(t: array<bv8>, u: Bytes)
    requires |u| == t.Length
    modifies t
    ensures t[..] == Xor(old(t[..]), u)
  {
    for i := 0 to t.Length
      invariant forall k :: 0 <= k < i ==> t[k] == old(t[k]) ^ u[k]
      invariant forall k :: i <= k < t.Length ==> t[k] == old(t[k])
    {
      t[i] := t[i] ^ u[i];
    }
  }

  /** The nested loops compute the derived key; an iteration count below one counts as one. */
  method Pbkdf2SHA256(prf: Prf, password: Bytes, salt: Bytes, iter: int, dkLen: nat) returns (dk: Bytes)
    requires Sized(prf)
    ensures dk == DK(prf, password, salt, if iter < 1 then 1 else iter, dkLen)
  {
    var blocks := BlockCount(dkLen);
    dk := [];
    for block := 1 to blocks + 1
      invariant dk == Blocks(prf, password, salt, if iter < 1 then 1 else iter, block - 1)
    {
      var t := Block(prf, password, salt, iter, block);
      dk := dk + t[..];
    }
    dk := dk[..dkLen];
  }

  // ------------------------------------------------------------------ the encoded hash

  datatype Base64 = Base64(encode: Bytes -> string, decode: string -> Option<Bytes>)

  ghost predicate Faithful(b: Base64) {
    forall x :: b.decode(b.encode(x)) == Some(x) && '$' !in b.encode(x)
  }

  /** Fields joined by separators. */
  function JoinBy(fields: seq<string>): string
    requires fields != []
  {
    if |fields| == 1 then fields[0] else fields[0] + ['$'] + JoinBy(fields[1..])
  }

  function EncodedFields(b: Base64, iter: nat, salt: Bytes, dk: Bytes): seq<string> {
    ["pbkdf2", "sha256", Text.FormatInt(iter), b.encode(salt), b.encode(dk)]
  }

  /** The five fields, separated by dollar signs. */
  function Encoded(b: Base64, iter: nat, salt: Bytes, dk: Bytes): string {
    JoinBy(EncodedFields(b, iter, salt, dk))
  }

  datatype Stored = Stored(iter: nat, salt: Bytes, want: Bytes)

  /** What an encoded string says, when it is well formed. */
  function Parsed(b: Base64, encoded: string): (r: Option<Stored>)
    ensures r.Some? ==> r.value.iter >= 1 && r.value.want != []
  {
    var parts := Text.Split(encoded, '$');
    if |parts| != 5 || parts[0] != "pbkdf2" || parts[1] != "sha256" then None
    else match (Text.ParseInt(parts[2]), b.decode(parts[3]), b.decode(parts[4]))
      case (Some(iter), Some(salt), Some(want)) =>
        if iter < 1 || want == [] then None else Some(Stored(iter, salt, want))
      case _ => None
  }

  function HashOf(prf: Prf, b: Base64, pw: Bytes, salt: Bytes): string
    requires Sized(prf)
  {
    Encoded(b, ITERATIONS, salt, DK(prf, pw, salt, ITERATIONS, KEYLEN))
  }

  predicate Verifies(prf: Prf, b: Base64, encoded: string, pw: Bytes)
    requires Sized(prf)
  {
    match Parsed(b, encoded)
    case None => false
    case Some(st) => DK(prf, pw, st.salt, st.iter, |st.want|) == st.want
  }

  method HashPassword(prf: Prf, b: Base64, pw: Bytes, salt: Bytes) returns (encoded: string)
    requires Sized(prf)
    ensures encoded == HashOf(prf, b, pw, salt)
  {
    var dk := Pbkdf2SHA256(prf, pw, salt, ITERATIONS, KEYLEN);
    encoded := Encoded(b, ITERATIONS, salt, dk);
  }

  method VerifyPassword(prf: Prf, b: Base64, encoded: string, pw: Bytes) returns (ok: bool)
    requires Sized(prf)
    ensures ok <==> Verifies(prf, b, encoded, pw)
  {
    var parts := Text.Split(encoded, '$');
    if |parts| != 5 || parts[0] != "pbkdf2" || parts[1] != "sha256" {
      return false;
    }
    var iter := Text.ParseInt(parts[2]);
    if iter.None? || iter.value < 1 {
      return false;
    }
    var salt := b.decode(parts[3]);
    if salt.None? {
      return false;
    }
    var want := b.decode(parts[4]);
    if want.None? || |want.value| == 0 {
      return false;
    }
    var got := Pbkdf2SHA256(prf, pw, salt.value, iter.value, |want.value|);
    return got == want.value;
  }

  /** Fields without the separator come back from splitting. */
  lemma {:induction false} SplitOfJoin(fields: seq<string>)
    requires fields != [] && forall k :: 0 <= k < |fields| ==> '$' !in fields[k]
    ensures Text.Split(JoinBy(fields), '$') == fields
  {
    if |fields| == 1 {
      Text.SplitLast(fields[0], '$');
    } else {
      SplitOfJoin(fields[1..]);
      Text.SplitStep(fields[0], '$', JoinBy(fields[1..]));
    }
  }

  lemma ParseOfEncoded(b: Base64, iter: nat, salt: Bytes, dk: Bytes)
    requires Faithful(b) && 1 <= iter <= Text.MAX_INT64 && dk != []
    ensures Parsed(b, Encoded(b, iter, salt, dk)) == Some(Stored(iter, salt, dk))
  {
    var fields := EncodedFields(b, iter, salt, dk);
    assert '$' !in fields[2];
    SplitOfJoin(fields);
    Text.ParseFormat(iter);
  }

  /** A stored hash accepts exactly the passwords that derive the same key, so in particular the one it
      was made from. */
  lemma VerifyAcceptsExactly(prf: Prf, b: Base64, pw: Bytes, salt: Bytes, other: Bytes)
    requires Sized(prf) && Faithful(b)
    ensures Verifies(prf, b, HashOf(prf, b, pw, salt), other) <==>
      DK(prf, other, salt, ITERATIONS, KEYLEN) == DK(prf, pw, salt, ITERATIONS, KEYLEN)
    ensures Verifies(prf, b, HashOf(prf, b, pw, salt), pw)
  {
    ParseOfEncoded(b, ITERATIONS, salt, DK(prf, pw, salt, ITERATIONS, KEYLEN));
  }

  // ------------------------------------------------------------------ the text of a stored hash

  /** A new hash names its scheme, 210000 iterations, the salt and the 32 octets derived from it. */
  lemma HashInFields(prf: Prf, b: Base64, pw: Bytes, salt: Bytes)
    requires Sized(prf)
    ensures HashOf(prf, b, pw, salt) ==
      "pbkdf2$sha256$" + Text.FormatInt(210_000) + "$" + b.encode(salt) + "$"
      + b.encode(DK(prf, pw, salt, 210_000, 32))
  {
    var n, x, y := Text.FormatInt(210_000), b.encode(salt), b.encode(DK(prf, pw, salt, 210_000, 32));
    JoinOfFive("pbkdf2", "sha256", n, x, y);
    assert "pbkdf2" + "$" + "sha256" + "$" + n + "$" + x + "$" + y == "pbkdf2$sha256$" + n + "$" + x + "$" + y;
  }

  lemma JoinOfFive(u: string, v: string, n: string, x: string, y: string)
    ensures JoinBy([u, v, n, x, y]) == u + "$" + v + "$" + n + "$" + x + "$" + y
  {
    assert [u, v, n, x, y][1..] == [v, n, x, y] && [v, n, x, y][1..] == [n, x, y];
    assert [n, x, y][1..] == [x, y] && [x, y][1..] == [y];
    assert JoinBy([x, y]) == x + "$" + y;
    assert JoinBy([n, x, y]) == n + "$" + (x + "$" + y);
    assert JoinBy([v, n, x, y]) == v + "$" + (n + "$" + (x + "$" + y));
  }

  ghost predicate NoneHas(parts: seq<string>, c: char) { forall k :: 0 <= k < |parts| ==> c !in parts[k] }

  lemma {:induction false} JoinOfSplit(s: string)
    ensures JoinBy(Text.Split(s, '$')) == s && NoneHas(Text.Split(s, '$'), '$')
    decreases |s|
  {
    var k := Text.IndexByte(s, '$');
    if k == |s| {
      assert Text.Split(s, '$') == [s];
    } else {
      var rest := Text.Split(s[k + 1..], '$');
      JoinOfSplit(s[k + 1..]);
      JoinOfCons(s[..k], rest);
      assert s == s[..k] + ['$'] + s[k + 1..];
    }
  }

  lemma JoinOfCons(a: string, rest: seq<string>)
    requires rest != []
    ensures JoinBy([a] + rest) == a + ['$'] + JoinBy(rest)
    ensures NoneHas([a] + rest, '$') <==> '$' !in a && NoneHas(rest, '$')
  {
    var all := [a] + rest;
    assert all[1..] == rest;
    assert forall k :: 0 <= k < |rest| ==> all[k + 1] == rest[k];
  }

  /** The text has five fields between dollar signs: the scheme, a count of at least one, a salt and a key that
      is not empty. */
  ghost predicate Holds(b: Base64, encoded: string, st: Stored, count: string, salt: string, key: string) {
    && encoded == "pbkdf2$sha256$" + count + "$" + salt + "$" + key
    && '$' !in count && '$' !in salt && '$' !in key
    && Text.ParseInt(count) == Some(st.iter) && b.decode(salt) == Some(st.salt) && b.decode(key) == Some(st.want)
    && st.iter >= 1 && st.want != []
  }

  /** A text parses to what it holds, and to nothing when it holds nothing. */
  lemma ParsedIff(b: Base64, encoded: string, st: Stored)
    ensures Parsed(b, encoded) == Some(st) <==>
      exists count, salt, key :: Holds(b, encoded, st, count, salt, key)
  {
    var parts := Text.Split(encoded, '$');
    if Parsed(b, encoded) == Some(st) {
      JoinOfSplit(encoded);
      assert parts == ["pbkdf2", "sha256", parts[2], parts[3], parts[4]];
      JoinOfFive("pbkdf2", "sha256", parts[2], parts[3], parts[4]);
      FrontOfFive(parts[2], parts[3], parts[4]);
      assert Holds(b, encoded, st, parts[2], parts[3], parts[4]);
    }
    if count, salt, key :| Holds(b, encoded, st, count, salt, key) {
      var fields := ["pbkdf2", "sha256", count, salt, key];
      JoinOfFive("pbkdf2", "sha256", count, salt, key);
      FrontOfFive(count, salt, key);
      SplitOfJoin(fields);
    }
  }

  lemma FrontOfFive(n: string, x: string, y: string)
    ensures "pbkdf2" + "$" + "sha256" + "$" + n + "$" + x + "$" + y == "pbkdf2$sha256$" + n + "$" + x + "$" + y
  {
  }

  /** A password is accepted exactly when the text holds the key that the password derives. */
  lemma VerifiesIff(prf: Prf, b: Base64, encoded: string, pw: Bytes)
    requires Sized(prf)
    ensures Verifies(prf, b, encoded, pw) <==>
      exists st :: Parsed(b, encoded) == Some(st) && DK(prf, pw, st.salt, st.iter, |st.want|) == st.want
  {
    if Verifies(prf, b, encoded, pw) {
      var st := Parsed(b, encoded).value;
      assert Parsed(b, encoded) == Some(st);
    }
  }
}
