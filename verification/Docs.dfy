/** Encrypted document commits: key derivation (RFC 5869), the message framing and the
    commit round trip, over an abstract MAC, cipher and wire codec. */
module Docs {
  import opened Bytes
  import Chunks
  import opened Decimals
  import opened Wrappers

  datatype Error = OutputTooLong | CiphertextTooShort | CipherFailed | Malformed

  datatype Result<+T> = Ok(value: T) | Err(error: Error)

  const HASH_LENGTH: nat := 32
  const SALT_SIZE: nat := 32
  const IV_SIZE: nat := 16

  // ---- HKDF ----

  type Mac = (seq<Byte>, seq<Byte>) -> seq<Byte>

  ghost predicate HashSized(mac: Mac) {
    forall key, message :: |mac(key, message)| == HASH_LENGTH
  }

  /** T(i) of section 2.3 of RFC 5869. */
  function Block(mac: Mac, prk: seq<Byte>, info: seq<Byte>, i: nat): seq<Byte> {
    if i == 0 then [] else mac(prk, Block(mac, prk, info, i - 1) + info + [i % 256])
  }

  /** T(1) | T(2) | ... | T(n) */
  function Blocks(mac: Mac, prk: seq<Byte>, info: seq<Byte>, n: nat): seq<Byte> {
    if n == 0 then [] else Blocks(mac, prk, info, n - 1) + Block(mac, prk, info, n)
  }

  function BlockCount(length: nat): nat {
    (length + HASH_LENGTH - 1) / HASH_LENGTH
  }

  function Hkdf(mac: Mac, salt: seq<Byte>, ikm: seq<Byte>, info: seq<Byte>, length: nat): Result<seq<Byte>> {
    var n := BlockCount(length);
    if n > 255 then Err(OutputTooLong)
    else
      var okm := Blocks(mac, mac(salt, ikm), info, n);
      Ok(if length < |okm| then okm[..length] else okm)
  }

  method HkdfSha256(mac: Mac, salt: seq<Byte>, ikm: seq<Byte>, info: seq<Byte>, length: nat)
    returns (r: Result<seq<Byte>>)
    ensures r == Hkdf(mac, salt, ikm, info, length)
  {
    var prk := mac(salt, ikm);
    var n := (length + HASH_LENGTH - 1) / HASH_LENGTH;
    if n > 255 {
      return Err(OutputTooLong);
    }
    var okm: seq<Byte>, t: seq<Byte> := [], [];
    for i := 1 to n + 1
      invariant t == Block(mac, prk, info, i - 1) && okm == Blocks(mac, prk, info, i - 1)
    {
      t := mac(prk, t + info + [i]);
      okm := okm + t;
    }
    r := Ok(if length < |okm| then okm[..length] else okm);
  }

  lemma {:induction false} BlocksAt(mac: Mac, prk: seq<Byte>, info: seq<Byte>, n: nat, j: nat)
    requires HashSized(mac)
    ensures |Blocks(mac, prk, info, n)| == HASH_LENGTH * n
    ensures j < HASH_LENGTH * n ==>
              && |Block(mac, prk, info, j / HASH_LENGTH + 1)| == HASH_LENGTH
              && Blocks(mac, prk, info, n)[j] == Block(mac, prk, info, j / HASH_LENGTH + 1)[j % HASH_LENGTH]
    decreases n
  {
    if n > 0 {
      BlocksAt(mac, prk, info, n - 1, j);
      if HASH_LENGTH * (n - 1) <= j < HASH_LENGTH * n {
        assert j / HASH_LENGTH == n - 1 && j % HASH_LENGTH == j - HASH_LENGTH * (n - 1);
      }
    }
  }

  /** The output exists up to 255 hashes, has exactly the requested length, and its octet `j`
      is octet `j % 32` of T(j / 32 + 1): it is the start of T(1) | T(2) | ... */
  lemma HkdfOctets(mac: Mac, salt: seq<Byte>, ikm: seq<Byte>, info: seq<Byte>, length: nat)
    requires HashSized(mac)
    ensures var r := Hkdf(mac, salt, ikm, info, length);
            && (r.Ok? <==> length <= 255 * HASH_LENGTH)
            && (r.Ok? ==> |r.value| == length)
            && (r.Ok? ==> forall j :: 0 <= j < length ==>
                  |Block(mac, mac(salt, ikm), info, j / HASH_LENGTH + 1)| == HASH_LENGTH &&
                  r.value[j] == Block(mac, mac(salt, ikm), info, j / HASH_LENGTH + 1)[j % HASH_LENGTH])
  {
    var n := BlockCount(length);
    assert HASH_LENGTH * n >= length && HASH_LENGTH * n < length + HASH_LENGTH;
    BlocksAt(mac, mac(salt, ikm), info, n, 0);
    forall j | 0 <= j < length
      ensures |Block(mac, mac(salt, ikm), info, j / HASH_LENGTH + 1)| == HASH_LENGTH
      ensures Blocks(mac, mac(salt, ikm), info, n)[j]
          == Block(mac, mac(salt, ikm), info, j / HASH_LENGTH + 1)[j % HASH_LENGTH]
    {
      BlocksAt(mac, mac(salt, ikm), info, n, j);
    }
  }

  /** A shorter output is a prefix of a longer one. */
  lemma HkdfPrefix(mac: Mac, salt: seq<Byte>, ikm: seq<Byte>, info: seq<Byte>, short: nat, long: nat)
    requires HashSized(mac) && short <= long <= 255 * HASH_LENGTH
    ensures Hkdf(mac, salt, ikm, info, short).Ok? && Hkdf(mac, salt, ikm, info, long).Ok?
    ensures Hkdf(mac, salt, ikm, info, short).value <= Hkdf(mac, salt, ikm, info, long).value
  {
    HkdfOctets(mac, salt, ikm, info, short);
    HkdfOctets(mac, salt, ikm, info, long);
  }

  // ---- What is assumed of the cipher and the codecs ----

  datatype Signed = Signed(content: seq<Byte>, signature: seq<Byte>)

  datatype Commit = Commit(updates: Option<seq<Chunks.Update>>, version: int, lockId: string)

  datatype Suite = Suite(
    mac: Mac,
    seal: (seq<Byte>, seq<Byte>, seq<Byte>, seq<Byte>) -> Option<seq<Byte>>,
    open: (seq<Byte>, seq<Byte>, seq<Byte>, seq<Byte>) -> Option<seq<Byte>>,
    utf8: string -> seq<Byte>,
    encodeSigned: Signed -> seq<Byte>,
    decodeSigned: seq<Byte> -> Option<Signed>,
    encodeCommit: Commit -> seq<Byte>,
    decodeCommit: seq<Byte> -> Option<Commit>
  )

  /** Opening undoes sealing under the same key, nonce and associated data, sealing adds a
      16-byte tag, and decoding undoes encoding. */
  ghost predicate Lawful(s: Suite) {
    && HashSized(s.mac)
    && (forall key, nonce, message, aad :: s.seal(key, nonce, message, aad).Some? ==>
          var c := s.seal(key, nonce, message, aad).value;
          |c| == |message| + 16 && s.open(key, nonce, c, aad) == Some(message))
    && (forall x :: s.decodeSigned(s.encodeSigned(x)) == Some(x))
    && (forall x :: s.decodeCommit(s.encodeCommit(x)) == Some(x))
  }

  // ---- Messages ----

  function Signed32(n: int): string {
    if n < 0 then "-" + Decimal(-n) else Decimal(n)
  }

  function AssociatedData(update: Chunks.Update): string {
    var author := if update.author == "" then "anonymous" else update.author;
    "docs.rts." + Signed32(update.version) + "." + author + "." + Decimal(update.timestamp)
  }

  /** The random salt and nonce are arguments. */
  function EncryptDocsMessage(s: Suite, plaintext: seq<Byte>, key: seq<Byte>, aad: seq<Byte>, salt: seq<Byte>,
        iv: seq<Byte>)
    : Result<seq<Byte>>
    requires |salt| == SALT_SIZE && |iv| == IV_SIZE
  {
    var derived := Hkdf(s.mac, salt, key, aad, 32);
    if derived.Err? then derived
    else
      var sealed := s.seal(derived.value, iv, plaintext, aad);
      if sealed.None? then Err(CipherFailed) else Ok(salt + iv + sealed.value)
  }

  function DecryptDocsMessage(s: Suite, encrypted: seq<Byte>, key: seq<Byte>, aad: seq<Byte>): Result<seq<Byte>> {
    if |encrypted| <= SALT_SIZE + IV_SIZE then Err(CiphertextTooShort)
    else
      var salt, iv := encrypted[..SALT_SIZE], encrypted[SALT_SIZE..][..IV_SIZE];
      var derived := Hkdf(s.mac, salt, key, aad, 32);
      if derived.Err? then derived
      else
        var plain := s.open(derived.value, iv, encrypted[SALT_SIZE..][IV_SIZE..], aad);
        if plain.None? then Err(CipherFailed) else Ok(plain.value)
  }

  lemma MessageRoundTrip(s: Suite, plaintext: seq<Byte>, key: seq<Byte>, aad: seq<Byte>, salt: seq<Byte>, iv: seq<Byte>)
    requires Lawful(s) && |salt| == SALT_SIZE && |iv| == IV_SIZE
    requires EncryptDocsMessage(s, plaintext, key, aad, salt, iv).Ok?
    ensures DecryptDocsMessage(s, EncryptDocsMessage(s, plaintext, key, aad, salt, iv).value, key, aad) == Ok(plaintext)
  {
    hide Hkdf;
    var encrypted := EncryptDocsMessage(s, plaintext, key, aad, salt, iv).value;
    assert encrypted[..SALT_SIZE] == salt;
    assert encrypted[SALT_SIZE..][..IV_SIZE] == iv;
    assert salt + iv + encrypted[SALT_SIZE..][IV_SIZE..] == encrypted;
  }

  // ---- Commits ----

  datatype Decrypted = Decrypted(content: seq<Byte>, signature: seq<Byte>, author: string, timestamp: nat, uuid: string)

  function Hex(n: nat, width: nat): string
    decreases width, n
  {
    if width == 0 then ""
    else
      var d := n % 16;
      Hex(n / 16, width - 1) + [if d < 10 then (d as char) + '0' else ((d - 10) as char) + 'a']
  }

  function NewUpdate(author: string, timestamp: nat): Chunks.Update {
    Chunks.Update([], 1, timestamp, author, Hex(timestamp, 32))
  }

  function EncryptYjsCommit(s: Suite, yjs: seq<Byte>, key: seq<Byte>, author: string, timestamp: nat,
        salt: seq<Byte>, iv: seq<Byte>)
    : Result<Commit>
    requires |salt| == SALT_SIZE && |iv| == IV_SIZE
  {
    var update := NewUpdate(author, timestamp);
    var encrypted := EncryptDocsMessage(s, s.encodeSigned(Signed(yjs, [])), key, s.utf8(AssociatedData(update)), salt,
        iv);
    if encrypted.Err? then Err(encrypted.error)
    else Ok(Commit(Some([update.(content := encrypted.value)]), 1, ""))
  }

  function DecryptUpdate(s: Suite, update: Chunks.Update, key: seq<Byte>): Result<Decrypted> {
    var plaintext := DecryptDocsMessage(s, update.content, key, s.utf8(AssociatedData(update)));
    if plaintext.Err? then Err(plaintext.error)
    else
      var signed := s.decodeSigned(plaintext.value);
      if signed.None? then Err(Malformed)
      else Ok(Decrypted(signed.value.content, signed.value.signature, update.author, update.timestamp, update.uuid))
  }

  /** All updates decrypted, or the first error. */
  function DecryptAll(s: Suite, updates: seq<Chunks.Update>, key: seq<Byte>): Result<seq<Decrypted>> {
    if updates == [] then Ok([])
    else
      var first := DecryptUpdate(s, updates[0], key);
      if first.Err? then Err(first.error)
      else
        var rest := DecryptAll(s, updates[1..], key);
        if rest.Err? then rest else Ok([first.value] + rest.value)
  }

  function DecryptCommit(s: Suite, raw: seq<Byte>, key: seq<Byte>): Result<seq<Decrypted>> {
    var commit := s.decodeCommit(raw);
    if commit.None? then Err(Malformed)
    else
      var updates := if commit.value.updates.None? then [] else commit.value.updates.value;
      DecryptAll(s, Chunks.Merged(updates), key)
  }

  lemma OneUpdate(s: Suite, update: Chunks.Update, key: seq<Byte>)
    requires DecryptUpdate(s, update, key).Ok?
    ensures DecryptAll(s, [update], key) == Ok([DecryptUpdate(s, update, key).value])
  {
    hide DecryptUpdate;
    var one := [update];
    assert one[0] == update && one[1..] == [];
    assert DecryptAll(s, one[1..], key) == Ok([]);
    var first := DecryptUpdate(s, update, key).value;
    assert DecryptAll(s, one, key) == Ok([first] + []);
    assert [first] + [] == [first];
  }

  lemma RunOne(u: Chunks.Update)
    ensures Chunks.Run([u]) == Chunks.Step(Chunks.State(map[], []), u)
  {
    hide Chunks.Step;
    var one := [u];
    assert one[..0] == [] && Chunks.Run(one[..0]) == Chunks.State(map[], []);
    assert Chunks.Run(one) == Chunks.Step(Chunks.Run(one[..0]), one[0]);
  }

  lemma MergeOne(u: Chunks.Update)
    requires |u.content| >= Chunks.HEADER_LENGTH
    ensures !(Chunks.CHUNK_SIGNAL <= u.content) ==> Chunks.Merged([u]) == [u]
    ensures Chunks.CHUNK_SIGNAL <= u.content && !(u.content[19] == 0 && u.content[21] == 1) ==> Chunks.Merged([u]) == []
    ensures Chunks.CHUNK_SIGNAL <= u.content && u.content[19] == 0 && u.content[21] == 1 && u.content[22] != 0 ==>
              Chunks.Merged([u]) == [u.(content := [])]
    ensures Chunks.CHUNK_SIGNAL <= u.content && u.content[19] == 0 && u.content[21] == 1 && u.content[22] == 0 ==>
              Chunks.Merged([u]) == [u.(content := u.content[Chunks.HEADER_LENGTH..])]
  {
    RunOne(u);
    hide Chunks.Run, Chunks.Assembled;
    if Chunks.IsChunk(u.content) && u.content[19] == 0 {
      OnePiece(u.content[21], u.content[22], u.content[Chunks.HEADER_LENGTH..]);
    }
  }

  lemma OnePiece(total: Byte, index: nat, piece: seq<Byte>)
    ensures var filled := Chunks.Partial(total, map[][index := piece]);
            |filled.chunks| == 1 && Chunks.Assembled(filled.chunks, 1) == if index > 0 then [] else piece
  {
    var chunks: map<nat, seq<Byte>> := map[][index := piece];
    assert chunks.Keys == {index};
    assert Chunks.Assembled(chunks, 1) == Chunks.Assembled(chunks, 0) + if 0 in chunks then chunks[0] else [];
    assert [] + piece == piece;
  }

  /** The salt goes on after the signal like the header of a whole one-piece message: version 0, one piece, index 0. */
  predicate LooksWhole(salt: seq<Byte>)
    requires |salt| == SALT_SIZE
  {
    Chunks.CHUNK_SIGNAL <= salt && salt[19] == 0 && salt[21] == 1 && salt[22] == 0
  }

  /** What is left of the ciphertext behind such a header happens to open as the same signed content. */
  predicate OpensTheSame(s: Suite, encrypted: seq<Byte>, key: seq<Byte>, aad: seq<Byte>, yjs: seq<Byte>)
    requires |encrypted| >= Chunks.HEADER_LENGTH
  {
    var plain := DecryptDocsMessage(s, encrypted[Chunks.HEADER_LENGTH..], key, aad);
    plain.Ok? && s.decodeSigned(plain.value) == Some(Signed(yjs, []))
  }

  /** Decrypting an encrypted commit gives back the one update with the original bytes exactly when the random
      salt does not start with the chunk signal: such an update is dropped or refused. The one exception is the
      cipher's: a salt that looks like the header of a whole message makes the receiver open the rest of the
      ciphertext instead. */
  lemma CommitRoundTrip(s: Suite, yjs: seq<Byte>, key: seq<Byte>, author: string, timestamp: nat, salt: seq<Byte>,
        iv: seq<Byte>)
    requires Lawful(s) && |salt| == SALT_SIZE && |iv| == IV_SIZE
    requires EncryptYjsCommit(s, yjs, key, author, timestamp, salt, iv).Ok?
    ensures var commit := EncryptYjsCommit(s, yjs, key, author, timestamp, salt, iv).value;
            && commit.updates.Some? && |commit.updates.value| == 1
            && var sent := commit.updates.value[0];
               && |sent.content| >= Chunks.HEADER_LENGTH
               && (DecryptCommit(s, s.encodeCommit(commit), key)
                     == Ok([Decrypted(yjs, [], author, timestamp, Hex(timestamp, 32))])
                   <==> || !(Chunks.CHUNK_SIGNAL <= salt)
                        || (LooksWhole(salt) && OpensTheSame(s, sent.content, key, s.utf8(AssociatedData(sent)), yjs)))
  {
    hide Hkdf, Hex, Decimal, Chunks.Merged, DecryptAll;
    var update := NewUpdate(author, timestamp);
    var aad := s.utf8(AssociatedData(update));
    var plaintext := s.encodeSigned(Signed(yjs, []));
    var encrypted := EncryptDocsMessage(s, plaintext, key, aad, salt, iv).value;
    var sent := update.(content := encrypted);
    assert AssociatedData(sent) == AssociatedData(update);
    assert encrypted[..SALT_SIZE] == salt;
    assert Chunks.CHUNK_SIGNAL <= encrypted <==> Chunks.CHUNK_SIGNAL <= salt by {
      assert encrypted[..19] == salt[..19];
    }
    MergeOne(sent);
    MessageRoundTrip(s, plaintext, key, aad, salt, iv);
    OneUpdate(s, sent, key);
    NothingOrRefused(s, sent, key);
    if LooksWhole(salt) {
      WholeOpened(s, sent, key, yjs);
    }
  }

  lemma WholeOpened(s: Suite, sent: Chunks.Update, key: seq<Byte>, yjs: seq<Byte>)
    requires |sent.content| >= Chunks.HEADER_LENGTH
    ensures DecryptAll(s, [sent.(content := sent.content[Chunks.HEADER_LENGTH..])], key)
              == Ok([Decrypted(yjs, [], sent.author, sent.timestamp, sent.uuid)])
            <==> OpensTheSame(s, sent.content, key, s.utf8(AssociatedData(sent)), yjs)
  {
    hide Hkdf, DecryptDocsMessage, DecryptAll, Decimal;
    var rest := sent.(content := sent.content[Chunks.HEADER_LENGTH..]);
    assert AssociatedData(rest) == AssociatedData(sent);
    if DecryptUpdate(s, rest, key).Ok? {
      OneUpdate(s, rest, key);
      var got := DecryptUpdate(s, rest, key).value;
      assert [got] == [Decrypted(yjs, [], sent.author, sent.timestamp, sent.uuid)]
             <==> got == Decrypted(yjs, [], sent.author, sent.timestamp, sent.uuid) by {
        assert [got][0] == got;
      }
    } else {
      OneRefused(s, rest, key);
    }
  }

  lemma OneRefused(s: Suite, update: Chunks.Update, key: seq<Byte>)
    requires DecryptUpdate(s, update, key).Err?
    ensures DecryptAll(s, [update], key).Err?
  {
    hide DecryptUpdate;
  }

  lemma NothingOrRefused(s: Suite, u: Chunks.Update, key: seq<Byte>)
    ensures DecryptAll(s, [], key) == Ok([])
    ensures DecryptAll(s, [u.(content := [])], key).Err?
  {
  }
}
