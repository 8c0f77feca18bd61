/** The whitelist integrity guard of src/skopos/checker.py: a text file of
    trusted package names (one per line, '#' lines are comments) and a
    signature file holding the hex SHA-256 digest of the whitelist's bytes.
    Either file may be absent. SHA-256 itself is a parameter: a function
    from the file's content to a lowercase hex digest. */
module Whitelist {
  import opened Values
  import opened Text

  predicate IsHexDigit(c: char) {
    ('0' <= c <= '9') || ('a' <= c <= 'f')
  }

  /** What `hashlib.sha256(...).hexdigest()` returns: lowercase hex. */
  type Digest = d: string | forall i :: 0 <= i < |d| ==> IsHexDigit(d[i])

  /** The hash of a whitelist's raw content. */
  type Hasher = string -> Digest

  /** Distinct contents have distinct digests. */
  ghost predicate Injective(h: Hasher) {
    forall a, b :: h(a) == h(b) ==> a == b
  }

  /** The comment line `ensure_whitelist_exists` writes, and the content. */
  const HeaderLine: string := "# Skopos Whitelist - Trusted packages"
  const Header: string := HeaderLine + "\n"

  /** A line of the whitelist that names `name`. */
  predicate Names(line: string, name: string) {
    !StartsWith(line, "#") && Strip(line) == name
  }

  /** The names `is_whitelisted` compares against: every line that does not
      start with '#', stripped. */
  function Entries(lines: seq<string>): seq<string> {
    if lines == [] then [] else Entry(lines[0]) + Entries(lines[1..])
  }

  /** What one line contributes: nothing for a comment, else the line
      stripped. */
  function Entry(line: string): (e: seq<string>)
    ensures e == [] || e == [Strip(line)]
    ensures forall name :: name in e <==> Names(line, name)
  {
    if StartsWith(line, "#") then [] else [Strip(line)]
  }

  /** The lines a text-mode read of the whitelist yields. */
  function ReadLines(text: string): seq<string> {
    Lines(Universal(text))
  }

  /** `is_whitelisted(name)` over the whitelist file (None when absent). */
  predicate Listed(whitelist: Option<string>, name: string) {
    whitelist.Some? && name in Entries(ReadLines(whitelist.value))
  }

  /** `verify_whitelist_integrity()`: no whitelist is trusted; a whitelist
      without a signature is not; otherwise the stored signature, read as
      text and stripped, must equal the digest of the whitelist. */
  predicate Verified(whitelist: Option<string>, signature: Option<string>, hash: Hasher) {
    if whitelist.None? then true
    else if signature.None? then false
    else hash(whitelist.value) == Strip(Universal(signature.value))
  }

  /** The whitelist content after `add_to_whitelist(name)`: unchanged when
      the name is listed, otherwise `name + "\n"` appended (the file is
      created when absent). */
  function AfterAdd(whitelist: Option<string>, name: string): string {
    if Listed(whitelist, name) then whitelist.value else whitelist.GetOr("") + name + "\n"
  }

  /** A name that `add_to_whitelist` makes listable: no surrounding
      whitespace, no leading '#', and no line break inside. */
  predicate PlainName(name: string) {
    Trimmed(name) && !StartsWith(name, "#") && '\n' !in name && '\r' !in name
  }

  /** A whitelist the program's own writes keep: absent, empty or ending
      in a newline. */
  predicate WellFormed(whitelist: Option<string>) {
    whitelist.None? || NewlineTerminated(whitelist.value)
  }

  // ---------------------------------------------------------------------
  // Reading the whitelist

  /** The recursive `Entries` is the list comprehension of the source. */
  lemma {:induction false} EntriesIff(lines: seq<string>, name: string)
    ensures name in Entries(lines) <==> exists l :: l in lines && Names(l, name)
  {
    if lines != [] {
      EntriesIff(lines[1..], name);
      EntriesStepFound(lines, name);
      EntriesStepMissing(lines, name);
    }
  }

  lemma EntriesStepFound(lines: seq<string>, name: string)
    requires lines != []
    requires name in Entries(lines[1..]) <==> exists l :: l in lines[1..] && Names(l, name)
    ensures name in Entries(lines) ==> exists l :: l in lines && Names(l, name)
  {
    if name in Entries(lines) {
      InConcat(Entry(lines[0]), Entries(lines[1..]), name);
      if name in Entry(lines[0]) {
        HeadOrTail(lines, lines[0]);
        assert Names(lines[0], name);
      } else {
        var l :| l in lines[1..] && Names(l, name);
        HeadOrTail(lines, l);
      }
    }
  }

  lemma EntriesStepMissing(lines: seq<string>, name: string)
    requires lines != []
    requires name in Entries(lines[1..]) <==> exists l :: l in lines[1..] && Names(l, name)
    ensures name !in Entries(lines) ==> forall l :: l in lines ==> !Names(l, name)
  {
    if name !in Entries(lines) {
      InConcat(Entry(lines[0]), Entries(lines[1..]), name);
      forall l | l in lines
        ensures !Names(l, name)
      {
        HeadOrTail(lines, l);
      }
    }
  }

  lemma {:induction false} EntriesAppend(a: seq<string>, b: seq<string>)
    ensures Entries(a + b) == Entries(a) + Entries(b)
  {
    if a == [] {
      assert a + b == b;
    } else {
      ConsAppend(a, b);
      EntriesAppend(a[1..], b);
      Assoc(Entry(a[0]), Entries(a[1..]), Entries(b));
    }
  }

  /** `is_whitelisted`: false with no file; otherwise true iff some line
      read from the file does not start with '#' and strips to the name. */
  lemma ListedIff(whitelist: Option<string>, name: string)
    ensures Listed(whitelist, name) <==>
            whitelist.Some? && exists l :: l in ReadLines(whitelist.value) && Names(l, name)
  {
    if whitelist.Some? {
      EntriesIff(ReadLines(whitelist.value), name);
    }
  }

  /** A whitelist holding one comment line lists no package. */
  lemma CommentListsNothing(comment: string, name: string)
    requires '\r' !in comment && '\n' !in comment && StartsWith(comment, "#")
    ensures !Listed(Some(comment + "\n"), name)
  {
    var text := comment + "\n";
    UniversalPlain(text);
    LinesOfLine(comment);
    assert StartsWith(text, "#") by {
      assert text[..1] == comment[..1];
    }
    assert Entries([text]) == [];
  }

  lemma HeaderIsComment()
    ensures '\r' !in HeaderLine && '\n' !in HeaderLine && StartsWith(HeaderLine, "#")
  {
    forall i | 0 <= i < |HeaderLine|
      ensures HeaderLine[i] != '\r' && HeaderLine[i] != '\n'
    {
    }
    assert HeaderLine[0] == '#';
    assert HeaderLine[..1] == [HeaderLine[0]];
  }

  /** The freshly created whitelist lists no package. */
  lemma HeaderListsNothing(name: string)
    ensures !Listed(Some(Header), name)
  {
    HeaderIsComment();
    CommentListsNothing(HeaderLine, name);
  }

  /** Appending a line to a newline-terminated whitelist appends one line to
      what is read back. */
  lemma ReadAfterAppend(text: string, name: string)
    requires NewlineTerminated(text) && '\n' !in name && '\r' !in name
    ensures ReadLines(text + name + "\n") == ReadLines(text) + [name + "\n"]
  {
    assert text + name + "\n" == text + (name + "\n");
    UniversalAppend(text, name + "\n");
    UniversalPlain(name + "\n");
    UniversalNewlineTerminated(text);
    LinesAppend(Universal(text), name + "\n");
    LinesOfLine(name);
  }

  /** A trimmed name written with its newline strips back to itself. */
  lemma StripLine(name: string)
    requires Trimmed(name)
    ensures Strip(name + "\n") == name
  {
    var s := name + "\n";
    assert IsSpace('\n');
    RStripSpace(name, '\n');
    if name == [] {
      assert LStrip(s) == LStrip(s[1..]);
      assert s[1..] == [];
    } else {
      assert s[0] == name[0];
      assert LStrip(s) == s;
      assert RStrip(name) == name;
    }
  }

  // ---------------------------------------------------------------------
  // Adding names

  /** After an add, a plain name is listed, provided the whitelist was
      well formed. */
  lemma AddThenListed(whitelist: Option<string>, name: string)
    requires WellFormed(whitelist) && PlainName(name)
    ensures Listed(Some(AfterAdd(whitelist, name)), name)
  {
    if !Listed(whitelist, name) {
      var text := whitelist.GetOr("");
      ReadAfterAppend(text, name);
      EntriesAppend(ReadLines(text), [name + "\n"]);
      LineEntry(name);
      assert name in Entries(ReadLines(text) + [name + "\n"]);
    }
  }

  /** The line a plain name is written as names it. */
  lemma LineEntry(name: string)
    requires PlainName(name)
    ensures Entries([name + "\n"]) == [name]
  {
    var l := name + "\n";
    StripLine(name);
    assert !StartsWith(l, "#") by {
      if name == [] {
        assert l[0] == '\n';
      } else {
        assert l[..1] == name[..1];
      }
    }
    var tail: seq<string> := [l][1..];
    assert tail == [];
  }

  /** Reading a newline-terminated text followed by more text yields the
      first text's lines, then the rest's. */
  lemma ReadAppend(text: string, more: string)
    requires NewlineTerminated(text)
    ensures ReadLines(text + more) == ReadLines(text) + ReadLines(more)
  {
    UniversalAppend(text, more);
    UniversalNewlineTerminated(text);
    LinesAppend(Universal(text), Universal(more));
  }

  /** Adding any name, even one with line breaks or a leading '#', never
      unlists a name that was listed, provided the whitelist ends in a
      newline: adding "bar" to "foo" would give "foobar\n". */
  lemma AddKeepsListed(whitelist: Option<string>, name: string, other: string)
    requires WellFormed(whitelist)
    requires Listed(whitelist, other)
    ensures Listed(Some(AfterAdd(whitelist, name)), other)
  {
    if !Listed(whitelist, name) {
      var text := whitelist.value;
      assert text + name + "\n" == text + (name + "\n");
      ReadAppend(text, name + "\n");
      EntriesAppend(ReadLines(text), ReadLines(name + "\n"));
      InConcat(Entries(ReadLines(text)), Entries(ReadLines(name + "\n")), other);
    }
  }

  /** Adds keep the whitelist well formed. */
  lemma AddKeepsWellFormed(whitelist: Option<string>, name: string)
    requires WellFormed(whitelist)
    ensures WellFormed(Some(AfterAdd(whitelist, name)))
  {
  }

  /** Adding a plain name twice is adding it once. */
  lemma AddIdempotent(whitelist: Option<string>, name: string)
    requires WellFormed(whitelist) && PlainName(name)
    ensures AfterAdd(Some(AfterAdd(whitelist, name)), name) == AfterAdd(whitelist, name)
  {
    AddThenListed(whitelist, name);
  }

  // ---------------------------------------------------------------------
  // Signing and verifying

  /** A stored digest reads back as itself. */
  lemma DigestReadsBack(d: Digest)
    ensures Strip(Universal(d)) == d
  {
    HexIsPlain(d);
    UniversalPlain(d);
  }

  lemma HexIsPlain(d: Digest)
    ensures '\r' !in d && Trimmed(d)
  {
    forall c | c in d
      ensures c != '\r'
    {
      var i :| 0 <= i < |d| && d[i] == c;
      assert IsHexDigit(d[i]);
    }
    if d != [] {
      assert IsHexDigit(d[0]) && IsHexDigit(d[|d| - 1]);
    }
  }

  /** Fail-closed: a whitelist without a signature never verifies. */
  lemma MissingSignatureFails(text: string, hash: Hasher)
    ensures !Verified(Some(text), None, hash)
  {
  }

  /** For a signature file holding a digest, verification succeeds iff it
      is the digest of the current whitelist. */
  lemma VerifiedIff(text: string, d: Digest, hash: Hasher)
    ensures Verified(Some(text), Some(d), hash) <==> d == hash(text)
  {
    var stored := Strip(Universal(d));
    assert Verified(Some(text), Some(d), hash) == (hash(text) == stored);
    DigestReadsBack(d);
    assert stored == d;
  }

  /** Signing makes verification succeed. */
  lemma SignVerifies(text: string, hash: Hasher)
    ensures Verified(Some(text), Some(hash(text)), hash)
  {
    VerifiedIff(text, hash(text), hash);
  }

  /** Changing the whitelist without re-signing is detected. */
  lemma TamperDetected(signed: string, tampered: string, hash: Hasher)
    requires Injective(hash) && tampered != signed
    ensures !Verified(Some(tampered), Some(hash(signed)), hash)
  {
    VerifiedIff(tampered, hash(signed), hash);
  }

  /** The two files, as the program sees them. */
  class WhitelistStore {
    /** Content of the whitelist file; None when the file is absent. */
    var whitelist: Option<string>
    /** Content of the signature file; None when the file is absent. */
    var signature: Option<string>
    /** SHA-256 as a hex digest. */
    const hash: Hasher

    constructor (whitelist: Option<string>, signature: Option<string>, hash: Hasher)
      ensures this.whitelist == whitelist && this.signature == signature && this.hash == hash
    {
      this.whitelist := whitelist;
      this.signature := signature;
      this.hash := hash;
    }

    /** `is_whitelisted`. */
    function IsWhitelisted(name: string): bool
      reads this
    {
      Listed(whitelist, name)
    }

    /** `verify_whitelist_integrity`. */
    function VerifyIntegrity(): bool
      reads this
    {
      Verified(whitelist, signature, hash)
    }

    /** `sign_whitelist`: stores the digest of the whitelist. With no
        whitelist the read raises before anything is written: `ok` is false
        and nothing changes. */
    method Sign() returns (ok: bool)
      modifies this`signature
      ensures ok == whitelist.Some?
      ensures ok ==> signature == Some(hash(whitelist.value))
      ensures !ok ==> signature == old(signature)
      ensures ok ==> VerifyIntegrity()
    {
      if whitelist.None? {
        return false;
      }
      signature := Some(hash(whitelist.value));
      SignVerifies(whitelist.value, hash);
      return true;
    }

    /** `ensure_whitelist_exists`: acts only when the whitelist is absent,
        writing the header and signing it. */
    method EnsureExists()
      modifies this
      ensures old(whitelist).Some? ==> whitelist == old(whitelist) && signature == old(signature)
      ensures old(whitelist).None? ==> whitelist == Some(Header) && signature == Some(hash(Header))
      ensures old(whitelist).None? ==> VerifyIntegrity()
    {
      if whitelist.None? {
        whitelist := Some(Header);
        var _ := Sign();
      }
    }

    /** `add_to_whitelist`: a no-op for a listed name, otherwise appends
        exactly `name + "\n"`; the signature is left as it was. */
    method Add(name: string)
      modifies this`whitelist
      ensures whitelist == Some(AfterAdd(old(whitelist), name))
      ensures Listed(old(whitelist), name) ==> whitelist == old(whitelist)
      ensures signature == old(signature)
    {
      if IsWhitelisted(name) {
        return;
      }
      whitelist := Some(whitelist.GetOr("") + name + "\n");
    }

    /** The integrity gate that `main` runs before any command: create the
        whitelist if needed, then refuse to go on unless it verifies. */
    method IntegrityGate() returns (proceed: bool)
      modifies this
      ensures old(whitelist).Some? ==> whitelist == old(whitelist) && signature == old(signature)
      ensures old(whitelist).None? ==> whitelist == Some(Header) && signature == Some(hash(Header))
      ensures proceed == VerifyIntegrity()
      ensures proceed <==> old(whitelist).None? || Verified(old(whitelist), old(signature), hash)
    {
      EnsureExists();
      proceed := VerifyIntegrity();
    }
  }
}
