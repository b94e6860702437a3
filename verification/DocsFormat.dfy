/** The formats of encrypted documents, told without the functions that produce them: the derived key, the message and
    the text that is authenticated with it. */
module DocsFormat {
  import opened Bytes
  import Chunks
  import opened Decimals
  import opened Docs
  import opened Wrappers

  // ---- The derived key ----

  /** T(1), T(2) and so on of section 2.3 of RFC 5869. */
  ghost predicate Expanded(mac: Mac, prk: seq<Byte>, info: seq<Byte>, t: seq<seq<Byte>>) {
    && |t| <= 255
    && (|t| > 0 ==> t[0] == mac(prk, info + [1]))
    && forall i :: 0 < i < |t| ==> t[i] == mac(prk, t[i - 1] + info + [i + 1])
  }

  lemma {:induction false} ExpandedBlock(mac: Mac, prk: seq<Byte>, info: seq<Byte>, t: seq<seq<Byte>>, i: nat)
    requires Expanded(mac, prk, info, t) && i < |t|
    ensures t[i] == Block(mac, prk, info, i + 1)
  {
    assert [] + info + [1] == info + [1];
    if i > 0 {
      ExpandedBlock(mac, prk, info, t, i - 1);
    } else {
      assert Block(mac, prk, info, 0) == [];
    }
  }

  /** The output is the first octets of any such list of blocks that is long enough. */
  lemma HkdfExpands(mac: Mac, salt: seq<Byte>, ikm: seq<Byte>, info: seq<Byte>, length: nat, t: seq<seq<Byte>>)
    requires HashSized(mac) && Expanded(mac, mac(salt, ikm), info, t) && length <= 32 * |t|
    ensures Hkdf(mac, salt, ikm, info, length).Ok?
    ensures |Hkdf(mac, salt, ikm, info, length).value| == length
    ensures forall j :: 0 <= j < length ==>
              j / 32 < |t| && |t[j / 32]| == 32 && Hkdf(mac, salt, ikm, info, length).value[j] == t[j / 32][j % 32]
  {
    hide Hkdf, Block;
    HkdfOctets(mac, salt, ikm, info, length);
    forall j | 0 <= j < length
      ensures j / 32 < |t| && t[j / 32] == Block(mac, mac(salt, ikm), info, j / 32 + 1)
    {
      ExpandedBlock(mac, mac(salt, ikm), info, t, j / 32);
    }
  }

  /** A key of 32 octets is one block. */
  lemma KeyIsOneBlock(mac: Mac, salt: seq<Byte>, ikm: seq<Byte>, info: seq<Byte>)
    requires HashSized(mac)
    ensures Hkdf(mac, salt, ikm, info, 32) == Ok(mac(mac(salt, ikm), info + [1]))
  {
    hide Hkdf;
    var t := [mac(mac(salt, ikm), info + [1])];
    HkdfExpands(mac, salt, ikm, info, 32, t);
    var key := Hkdf(mac, salt, ikm, info, 32).value;
    assert forall j :: 0 <= j < 32 ==> j / 32 == 0 && j % 32 == j;
    assert key == t[0];
  }

  // ---- The message ----

  /** A message is the salt, the nonce and what the cipher makes of the plaintext under the key derived for this salt
      and this associated data; nothing else can go wrong. */
  lemma MessageFormat(s: Suite, plaintext: seq<Byte>, key: seq<Byte>, aad: seq<Byte>, salt: seq<Byte>, iv: seq<Byte>)
    requires HashSized(s.mac) && |salt| == 32 && |iv| == 16
    ensures var derived := s.mac(s.mac(salt, key), aad + [1]);
            EncryptDocsMessage(s, plaintext, key, aad, salt, iv)
            == match s.seal(derived, iv, plaintext, aad)
               case None => Err(CipherFailed)
               case Some(sealed) => Ok(salt + iv + sealed)
  {
    KeyIsOneBlock(s.mac, salt, key, aad);
    hide Hkdf;
  }

  /** A message is opened with the key for its first 32 octets, the next 16 as the nonce, and the rest, which must not
      be empty. */
  lemma MessageOpened(s: Suite, salt: seq<Byte>, iv: seq<Byte>, sealed: seq<Byte>, key: seq<Byte>, aad: seq<Byte>)
    requires HashSized(s.mac) && |salt| == 32 && |iv| == 16
    ensures DecryptDocsMessage(s, salt + iv + sealed, key, aad)
            == if sealed == [] then Err(CiphertextTooShort)
               else match s.open(s.mac(s.mac(salt, key), aad + [1]), iv, sealed, aad)
                    case None => Err(CipherFailed)
                    case Some(plain) => Ok(plain)
  {
    KeyIsOneBlock(s.mac, salt, key, aad);
    hide Hkdf;
    var encrypted := salt + iv + sealed;
    assert encrypted[..32] == salt;
    assert encrypted[32..][..16] == iv;
    assert encrypted[32..][16..] == sealed;
  }

  // ---- The associated data ----

  predicate Dotless(s: string) {
    '.' !in s
  }

  lemma DotInside(a: string, x: string, b: string, y: string)
    requires a + "." + x == b + "." + y
    ensures |a| < |b| ==> !Dotless(b)
    ensures |x| < |y| ==> !Dotless(y)
  {
    var (s, t) := (a + "." + x, b + "." + y);
    assert s[|a|] == '.' && s[|a|] == t[|a|];
    assert t[|b|] == '.' && s[|b|] == t[|b|];
    if |a| < |b| {
      assert t[|a|] == b[|a|];
    } else if |b| < |a| {
      assert t[|a|] == y[|a| - |b| - 1];
    }
  }

  lemma SameCut(a: string, x: string, b: string, y: string)
    requires a + "." + x == b + "." + y && |a| == |b|
    ensures a == b && x == y
  {
    var (s, t) := (a + "." + x, b + "." + y);
    assert s[..|a|] == a && t[..|b|] == b && s[|a| + 1..] == x && t[|b| + 1..] == y;
  }

  /** Texts are cut at the first dot, or at the last, in one way only. */
  lemma CutAtDot(a: string, x: string, b: string, y: string)
    requires a + "." + x == b + "." + y
    requires (Dotless(a) && Dotless(b)) || (Dotless(x) && Dotless(y))
    ensures a == b && x == y
  {
    DotInside(a, x, b, y);
    DotInside(b, y, a, x);
    assert |a + "." + x| == |b + "." + y|;
    SameCut(a, x, b, y);
  }

  lemma SignedDotless(n: int)
    ensures Dotless(Signed32(n))
  {
    hide Decimal;
  }

  lemma SignedInjective(m: int, n: int)
    requires Signed32(m) == Signed32(n)
    ensures m == n
  {
    var (a, b) := (if m < 0 then -m else m, if n < 0 then -n else n);
    SignedFirst(m);
    SignedFirst(n);
    assert Signed32(m)[0] == Signed32(n)[0];
    assert Signed32(m)[1..] == Signed32(n)[1..];
    if m < 0 {
      assert Signed32(m)[1..] == Decimal(a) && Signed32(n)[1..] == Decimal(b);
    }
    DecimalInjective(a, b);
  }

  lemma SignedFirst(n: int)
    ensures Signed32(n) != "" && (n < 0 <==> Signed32(n)[0] == '-')
  {
    hide Decimal;
  }

  function Author(update: Chunks.Update): string {
    if update.author == "" then "anonymous" else update.author
  }

  /** The text in parts. */
  lemma DataParts(update: Chunks.Update)
    ensures AssociatedData(update)
         == "docs.rts." + (Signed32(update.version) + "." + (Author(update) + "." + Decimal(update.timestamp)))
  {
    hide Signed32, Decimal;
    var (p, v, a, t) := ("docs.rts.", Signed32(update.version), Author(update), Decimal(update.timestamp));
    assert p + v + "." + a + "." + t == p + (v + "." + (a + "." + t)) by {
      Regroup(p, v, a, t);
    }
  }

  lemma Regroup(p: string, v: string, a: string, t: string)
    ensures p + v + "." + a + "." + t == p + (v + "." + (a + "." + t))
  {
    assert p + v + "." == p + (v + ".");
    assert p + (v + ".") + a + "." + t == p + (v + ".") + (a + "." + t) by {
      assert (p + (v + ".")) + a + "." == (p + (v + ".")) + (a + ".");
    }
    assert p + (v + ".") + (a + "." + t) == p + (v + "." + (a + "." + t));
  }

  /** The text tells updates apart by exactly version, author and time, except that a missing author is the same as one
      called anonymous. */
  lemma AssociatedDataInjective(u: Chunks.Update, v: Chunks.Update)
    ensures AssociatedData(u) == AssociatedData(v) <==>
              u.version == v.version && u.timestamp == v.timestamp
              && (u.author == v.author || {u.author, v.author} == {"", "anonymous"})
  {
    DataParts(u);
    DataParts(v);
    hide AssociatedData, Signed32, Decimal;
    AuthorsSame(u, v);
    if AssociatedData(u) == AssociatedData(v) {
      var (x, y) := (Author(u) + "." + Decimal(u.timestamp), Author(v) + "." + Decimal(v.timestamp));
      var (a, b) := (Signed32(u.version) + "." + x, Signed32(v.version) + "." + y);
      assert ("docs.rts." + a)[|"docs.rts."|..] == a && ("docs.rts." + b)[|"docs.rts."|..] == b;
      SignedDotless(u.version);
      SignedDotless(v.version);
      CutAtDot(Signed32(u.version), x, Signed32(v.version), y);
      SignedInjective(u.version, v.version);
      CutAtDot(Author(u), Decimal(u.timestamp), Author(v), Decimal(v.timestamp));
      DecimalInjective(u.timestamp, v.timestamp);
    }
  }

  lemma AuthorsSame(u: Chunks.Update, v: Chunks.Update)
    ensures Author(u) == Author(v) <==> u.author == v.author || {u.author, v.author} == {"", "anonymous"}
  {
    assert "" != "anonymous";
    if u.author == "" && v.author == "anonymous" {
      assert {u.author, v.author} == {"", "anonymous"};
    }
    if v.author == "" && u.author == "anonymous" {
      assert {u.author, v.author} == {"", "anonymous"};
    }
    if {u.author, v.author} == {"", "anonymous"} {
      assert u.author in {"", "anonymous"} && v.author in {"", "anonymous"};
    }
  }

  /** Two samples. */
  lemma AssociatedDataSamples(content: seq<Byte>, uuid: string)
    ensures AssociatedData(Chunks.Update(content, 1, 7, "alice", uuid)) == "docs.rts.1.alice.7"
    ensures AssociatedData(Chunks.Update(content, -2, 0, "", uuid)) == "docs.rts.-2.anonymous.0"
  {
    OneDigit(1);
    OneDigit(2);
    OneDigit(7);
    OneDigit(0);
    hide Decimal;
    assert Signed32(1) == "1" && Signed32(-2) == "-2";
    hide Signed32;
  }

  lemma OneDigit(n: nat)
    requires n < 10
    ensures Decimal(n) == [n as char + '0']
  {
  }

  // ---- Identifiers ----

  function HexValue(c: char): int {
    if '0' <= c <= '9' then c as int - '0' as int else c as int - 'a' as int + 10
  }

  function HexNumber(s: string): int {
    if s == "" then 0 else 16 * HexNumber(s[..|s| - 1]) + HexValue(s[|s| - 1])
  }

  function Pow16(k: nat): nat {
    if k == 0 then 1 else 16 * Pow16(k - 1)
  }

  /** Exactly so many small hexadecimal digits, which read as the number. */
  lemma {:induction false} HexMeaning(n: nat, width: nat)
    requires n < Pow16(width)
    ensures |Hex(n, width)| == width && HexNumber(Hex(n, width)) == n
    ensures forall k :: 0 <= k < width ==> var c := Hex(n, width)[k]; '0' <= c <= '9' || 'a' <= c <= 'f'
  {
    if width > 0 {
      HexMeaning(n / 16, width - 1);
      assert Hex(n, width)[..width - 1] == Hex(n / 16, width - 1);
    }
  }

  // ---- The commit ----

  /** A commit carries one update, of version 1: its content is sealed with a text that names its version, author and
      time, and its identifier is the time in 32 hexadecimal digits. */
  lemma CommitFormat(s: Suite, yjs: seq<Byte>, key: seq<Byte>, author: string, timestamp: nat, salt: seq<Byte>,
        iv: seq<Byte>)
    requires HashSized(s.mac) && |salt| == 32 && |iv| == 16 && timestamp < Pow16(32)
    requires EncryptYjsCommit(s, yjs, key, author, timestamp, salt, iv).Ok?
    ensures var commit := EncryptYjsCommit(s, yjs, key, author, timestamp, salt, iv).value;
            var name := if author == "" then "anonymous" else author;
            var aad := s.utf8("docs.rts.1." + name + "." + Decimal(timestamp));
            var sealed := s.seal(s.mac(s.mac(salt, key), aad + [1]), iv, s.encodeSigned(Signed(yjs, [])), aad);
            && commit.version == 1 && commit.lockId == "" && commit.updates.Some? && |commit.updates.value| == 1
            && var update := commit.updates.value[0];
               && update.version == 1 && update.timestamp == timestamp && update.author == author
               && |update.uuid| == 32 && HexNumber(update.uuid) == timestamp
               && sealed.Some? && update.content == salt + iv + sealed.value
  {
    var update := NewUpdate(author, timestamp);
    HexMeaning(timestamp, 32);
    VersionOne(update);
    MessageFormat(s, s.encodeSigned(Signed(yjs, [])), key, s.utf8(AssociatedData(update)), salt, iv);
    hide Hex, HexNumber, Decimal, AssociatedData, EncryptDocsMessage;
  }

  lemma VersionOne(update: Chunks.Update)
    requires update.version == 1
    ensures AssociatedData(update) == "docs.rts.1." + Author(update) + "." + Decimal(update.timestamp)
  {
    OneDigit(1);
    hide Decimal;
    assert Signed32(1) == "1";
    hide Signed32;
    assert "docs.rts." + "1" + "." == "docs.rts.1.";
  }
}
