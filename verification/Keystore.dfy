/**
 The encrypted keystore: each seed is sealed under a key derived from the passphrase and bound to its
 slot. Key derivation and authenticated encryption are ideal: a sealed text opens only under the
 key, nonce and associated data it was sealed with.
 */
module Keystore {
  import opened Wrappers
  import opened Hex
  import Utf8

  datatype Key = Key(passphrase: seq<byte>, salt: seq<byte>)

  datatype Ciphertext =
    | Sealed(key: Key, nonce: seq<byte>, aad: seq<byte>, plaintext: seq<byte>)
    | Garbage(bytes: seq<byte>)

  function Open(key: Key, nonce: seq<byte>, ct: Ciphertext, aad: seq<byte>): Option<seq<byte>> {
    if ct.Sealed? && ct.key == key && ct.nonce == nonce && ct.aad == aad then Some(ct.plaintext) else None
  }

  datatype Slot = Slot(alias: string, address: string, algorithm: string)

  datatype Entry = Entry(slot: Slot, nonce: seq<byte>, ciphertext: Ciphertext)

  datatype Error = Locked | NoEntry | NotAKeystore | BadVersion | BadKdf

  /** The passphrase given, or else the one in the environment; an empty one is none. */
  function ResolvePassphrase(given: Option<string>, environment: Option<string>): Option<seq<byte>> {
    var p := if given.Some? then given else environment;
    if p.None? || p.value == "" then None else Some(Utf8.Encode(p.value))
  }

  /** The associated data that binds a ciphertext to its slot. */
  function Aad(s: Slot): seq<byte> {
    Utf8.Encode(s.alias + ":" + s.address + ":" + s.algorithm)
  }

  function OpenEntry(key: Key, e: Entry): Result<seq<byte>, Error> {
    match Open(key, e.nonce, e.ciphertext, Aad(e.slot))
    case Some(plaintext) => Ok(plaintext)
    case None => Err(Locked)
  }

  /** What a keystore holds: the salt of every key, and the sealed entries by alias. */
  datatype Contents = Contents(salt: seq<byte>, entries: map<string, Entry>)

  /** Every entry sits under its own alias. */
  predicate Labelled(entries: map<string, Entry>) {
    forall a :: a in entries ==> entries[a].slot.alias == a
  }

  /** The entry that holds a seed sealed in its slot. */
  function Seal(key: Key, nonce: seq<byte>, slot: Slot, seed: string): Entry {
    Entry(slot, nonce, Sealed(key, nonce, Aad(slot), Utf8.Encode(seed)))
  }

  /** The contents once a seed has been sealed, and the new entry. */
  function WithSeed(c: Contents, slot: Slot, seed: string, passphrase: Option<seq<byte>>,
                    nonce: seq<byte>): (Contents, Result<Entry, Error>) {
    if passphrase.None? then (c, Err(Locked))
    else
      var entry := Seal(Key(passphrase.value, c.salt), nonce, slot, seed);
      (c.(entries := c.entries[slot.alias := entry]), Ok(entry))
  }

  /** The seed under an alias, as bytes. */
  function Decrypted(c: Contents, alias: string, passphrase: Option<seq<byte>>): Result<seq<byte>, Error> {
    if alias !in c.entries then Err(NoEntry)
    else if passphrase.None? then Err(Locked)
    else OpenEntry(Key(passphrase.value, c.salt), c.entries[alias])
  }

  /** Wipe a buffer. */
  method Zeroize(buf: array<byte>)
    modifies buf
    ensures forall i :: 0 <= i < buf.Length ==> buf[i] == 0
  {
    for i := 0 to buf.Length
      invariant forall j :: 0 <= j < i ==> buf[j] == 0
    {
      buf[i] := 0;
    }
  }

  method BufferOf(bytes: seq<byte>) returns (buf: array<byte>)
    ensures fresh(buf) && buf[..] == bytes
  {
    buf := new byte[|bytes|](i requires 0 <= i < |bytes| => bytes[i]);
  }

  class EncryptedKeystore {
    const salt: seq<byte>
    var entries: map<string, Entry>

    ghost function View(): Contents
      reads this
    {
      Contents(salt, entries)
    }

    ghost predicate Valid()
      reads this
    {
      Labelled(entries)
    }

    constructor (salt: seq<byte>, entries: map<string, Entry>)
      requires Labelled(entries)
      ensures Valid() && View() == Contents(salt, entries)
    {
      this.salt, this.entries := salt, entries;
    }

    /** Seal a seed in its slot, replacing what the alias held; every other entry stays. */
    method AddSeed(slot: Slot, seed: string, given: Option<string>, environment: Option<string>, nonce: seq<byte>)
      returns (r: Result<Entry, Error>)
      requires Valid()
      modifies this`entries
      ensures Valid()
      ensures (View(), r) == WithSeed(old(View()), slot, seed, ResolvePassphrase(given, environment), nonce)
      ensures r.Ok? ==> (forall key :: OpenEntry(key, r.value).Ok? <==>
                                       key == Key(ResolvePassphrase(given, environment).value, salt))
    {
      var passphrase := ResolvePassphrase(given, environment);
      if passphrase.None? {
        return Err(Locked);
      }
      var key := Key(passphrase.value, salt);
      var seedBuf := BufferOf(Utf8.Encode(seed));
      var ct := Sealed(key, nonce, Aad(slot), seedBuf[..]);
      Zeroize(seedBuf);
      var entry := Entry(slot, nonce, ct);
      entries := entries[slot.alias := entry];
      return Ok(entry);
    }

    /** The seed under an alias, in a buffer of its own. */
    method DecryptSeed(alias: string, given: Option<string>, environment: Option<string>)
      returns (r: Result<array<byte>, Error>)
      ensures var d := Decrypted(View(), alias, ResolvePassphrase(given, environment));
              if r.Ok? then d == Ok(r.value[..]) && fresh(r.value) else d == Err(r.error)
    {
      if alias !in entries {
        return Err(NoEntry);
      }
      var passphrase := ResolvePassphrase(given, environment);
      if passphrase.None? {
        return Err(Locked);
      }
      var plaintext := OpenEntry(Key(passphrase.value, salt), entries[alias]);
      if plaintext.Err? {
        return Err(plaintext.error);
      }
      var buf := BufferOf(plaintext.value);
      return Ok(buf);
    }
  }

  /**
   The passphrase a call uses: the one given, even if the environment has another; only if none is given, the
   one in the environment; and an empty one, wherever it comes from, is none.
   */
  lemma PassphraseIff(given: Option<string>, environment: Option<string>, passphrase: string)
    ensures ResolvePassphrase(given, environment) == Some(Utf8.Encode(passphrase)) <==>
            passphrase != "" && (given == Some(passphrase) || (given == None && environment == Some(passphrase)))
    ensures ResolvePassphrase(given, environment) == None <==>
            given == Some("") || (given == None && (environment == None || environment == Some("")))
  {
    if ResolvePassphrase(given, environment) == Some(Utf8.Encode(passphrase)) {
      Utf8.EncodeInjective(if given.Some? then given.value else environment.value, passphrase);
    }
  }

  // ---------------------------------------------------------------- the file

  datatype Stored = Stored(address: string, algorithm: string, nonce: seq<byte>, ciphertext: Ciphertext)

  datatype File = File(magic: string, version: int, kdf: string, salt: seq<byte>, entries: map<string, Stored>)

  function Filed(e: Entry): Stored {
    Stored(e.slot.address, e.slot.algorithm, e.nonce, e.ciphertext)
  }

  function Saved(c: Contents): File {
    File("quorumvault-keystore", 1, "scrypt", c.salt, map a | a in c.entries :: Filed(c.entries[a]))
  }

  /** An entry takes its alias from the key it is filed under. */
  function Loaded(f: File): Result<Contents, Error> {
    if f.magic != "quorumvault-keystore" then Err(NotAKeystore)
    else if f.version != 1 then Err(BadVersion)
    else if f.kdf != "scrypt" then Err(BadKdf)
    else
      Ok(Contents(f.salt, map a | a in f.entries :: FromFile(a, f.entries[a])))
  }

  function FromFile(alias: string, s: Stored): Entry {
    Entry(Slot(alias, s.address, s.algorithm), s.nonce, s.ciphertext)
  }

  /** What is refused as a keystore file, and why. */
  lemma LoadedIff(f: File)
    ensures var r := Loaded(f);
            (r.Ok? <==> f.magic == "quorumvault-keystore" && f.version == 1 && f.kdf == "scrypt")
            && (r == Err(NotAKeystore) <==> f.magic != "quorumvault-keystore")
            && (r == Err(BadVersion) <==> f.magic == "quorumvault-keystore" && f.version != 1)
            && (r.Ok? ==> r.value.salt == f.salt && Labelled(r.value.entries) && r.value.entries.Keys == f.entries.Keys)
  {
  }

  /** Loading what was saved gives the same salt and entries. */
  lemma SaveLoad(c: Contents)
    requires Labelled(c.entries)
    ensures Loaded(Saved(c)) == Ok(c)
  {
    LoadedIff(Saved(c));
    var back := Loaded(Saved(c)).value.entries;
    assert back.Keys == c.entries.Keys;
    forall a | a in c.entries ensures back[a] == c.entries[a] {
      assert c.entries[a].slot == Slot(a, c.entries[a].slot.address, c.entries[a].slot.algorithm);
    }
    assert back == c.entries;
  }

  /**
   Seal a seed, save, load and decrypt: with the passphrase it was sealed under, and with no other, it comes
   back as the very text that was sealed; and every other alias decrypts as before.
   */
  lemma SealedSeedComesBack(c: Contents, slot: Slot, seed: string, passphrase: seq<byte>, nonce: seq<byte>,
                            later: Option<seq<byte>>)
    requires Labelled(c.entries)
    ensures var sealed := WithSeed(c, slot, seed, Some(passphrase), nonce).0;
            Loaded(Saved(sealed)).Ok?
            && var back := Loaded(Saved(sealed)).value;
               (later == Some(passphrase) <==> Decrypted(back, slot.alias, later).Ok?)
               && (later == Some(passphrase) ==> Utf8.Decode(Decrypted(back, slot.alias, later).value) == Some(seed))
               && forall a :: a != slot.alias ==> Decrypted(back, a, later) == Decrypted(c, a, later)
  {
    SaveLoad(WithSeed(c, slot, seed, Some(passphrase), nonce).0);
    Utf8.DecodeEncode(seed);
  }

  // ---------------------------------------------------------------- slot binding

  predicate NoColon(s: string) {
    forall i :: 0 <= i < |s| ==> s[i] != ':'
  }

  /** The part after the last colon can be told apart. */
  lemma SplitAtLast(a: string, b: string, c: string, d: string)
    requires NoColon(b) && NoColon(d) && a + ":" + b == c + ":" + d
    ensures a == c && b == d
  {
    var s := a + ":" + b;
    assert s[|a|] == ':' && s[|c|] == ':';
    assert forall i :: |a| < i < |s| ==> s[i] == b[i - |a| - 1];
    assert forall i :: |c| < i < |s| ==> s[i] == d[i - |c| - 1];
    assert |a| == |c|;
    assert a == s[..|a|] && c == s[..|c|];
    assert b == s[|a| + 1..] && d == s[|c| + 1..];
  }

  /** Address and algorithm are free of the separator; the alias may be anything. */
  predicate Plain(s: Slot) {
    NoColon(s.address) && NoColon(s.algorithm)
  }

  /** The associated data spells the slot: alias, address and algorithm, with colons between, in UTF-8. */
  lemma AadSpells(s: Slot)
    ensures Utf8.Decode(Aad(s)) == Some(s.alias + ":" + s.address + ":" + s.algorithm)
  {
    Utf8.DecodeEncode(s.alias + ":" + s.address + ":" + s.algorithm);
  }

  /** For such slots the associated data tells any two apart. */
  lemma AadInjective(s: Slot, t: Slot)
    requires Plain(s) && Plain(t)
    ensures Aad(s) == Aad(t) <==> s == t
  {
    if Aad(s) == Aad(t) {
      Utf8.EncodeInjective(s.alias + ":" + s.address + ":" + s.algorithm,
                           t.alias + ":" + t.address + ":" + t.algorithm);
      SplitAtLast(s.alias + ":" + s.address, s.algorithm, t.alias + ":" + t.address, t.algorithm);
      SplitAtLast(s.alias, s.address, t.alias, t.address);
    }
  }

  lemma {:induction false} SplitOff(x: string) returns (u: string, v: string)
    requires !NoColon(x)
    ensures x == u + ":" + v && NoColon(v)
  {
    var n := |x| - 1;
    if x[n] == ':' {
      u, v := x[..n], "";
    } else {
      if NoColon(x[..n]) {
        assert forall i :: 0 <= i < n ==> x[i] == x[..n][i];
        assert false;
      }
      u, v := SplitOff(x[..n]);
      v := v + [x[n]];
    }
  }

  /**
   The condition is exact: a slot shares its associated data with some other slot of the plain kind if, and
   only if, its own address or algorithm has a colon.
   */
  lemma SharedAadIff(s: Slot)
    ensures (exists t :: Plain(t) && t != s && Aad(t) == Aad(s)) <==> !Plain(s)
  {
    if Plain(s) {
      forall t | Plain(t) && Aad(t) == Aad(s) ensures t == s {
        AadInjective(s, t);
      }
    } else {
      var t := PlainTwin(s);
      assert Plain(t) && t != s && Aad(t) == Aad(s);
    }
  }

  /** The slot that its text, cut at the last two colons, reads as. */
  lemma PlainTwin(s: Slot) returns (t: Slot)
    ensures Plain(t) && Aad(t) == Aad(s)
  {
    var x := s.alias + ":" + s.address + ":" + s.algorithm;
    assert x[|s.alias|] == ':' && x[|s.alias| + 1 + |s.address|] == ':';
    var u, v := SplitOff(x);
    assert forall i :: |u| < i < |x| ==> x[i] == v[i - |u| - 1];
    assert u[|s.alias|] == ':';
    var alias, address := SplitOff(u);
    t := Slot(alias, address, v);
  }

  /** A sealed seed put under another label opens only if the label, and the key, are the ones it was sealed with. */
  lemma RelabelledNeverOpens(e: Entry, slot: Slot, key: Key, key': Key)
    requires OpenEntry(key, e).Ok? && Plain(e.slot) && Plain(slot)
    ensures OpenEntry(key', e.(slot := slot)).Ok? <==> slot == e.slot && key' == key
  {
    AadInjective(e.slot, slot);
  }

  /** So a sealed seed can be moved to some plain slot and still open exactly when it was sealed in one that is not. */
  lemma MovedEntryOpensIff(e: Entry, key: Key)
    requires OpenEntry(key, e).Ok?
    ensures (exists t :: Plain(t) && t != e.slot && OpenEntry(key, e.(slot := t)).Ok?) <==> !Plain(e.slot)
  {
    SharedAadIff(e.slot);
    if t :| Plain(t) && t != e.slot && Aad(t) == Aad(e.slot) {
      assert OpenEntry(key, e.(slot := t)).Ok?;
    }
  }

  /**
   In a file whose entries have been moved about, what opens under an alias was sealed for that alias,
   address and algorithm.
   */
  lemma TransplantedFileRefused(entries: map<string, Entry>, f: File, origin: string, a: string, key: Key, key': Key)
    requires Labelled(entries) && origin in entries
    requires OpenEntry(key, entries[origin]).Ok? && Plain(entries[origin].slot)
    requires Loaded(f).Ok? && a in f.entries && NoColon(f.entries[a].address) && NoColon(f.entries[a].algorithm)
    requires f.entries[a].nonce == entries[origin].nonce && f.entries[a].ciphertext == entries[origin].ciphertext
    ensures OpenEntry(key', Loaded(f).value.entries[a]).Ok? <==>
            key' == key && Loaded(f).value.entries[a] == entries[origin]
    ensures OpenEntry(key', Loaded(f).value.entries[a]).Ok? ==> a == origin
  {
    var moved := Loaded(f).value.entries[a];
    assert moved == entries[origin].(slot := moved.slot);
    RelabelledNeverOpens(entries[origin], moved.slot, key, key');
  }
}
