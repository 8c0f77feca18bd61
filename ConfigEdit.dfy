/** The text rewrite of `set_integration_offline_file` in
    src/skopos/checker.py: setting `offline_file` in the
    `[integrations.<provider>]` section of a config.toml held as a string.
    The regular-expression replacement used when the section already has
    an `offline_file` is a parameter: `subst(block, line)` stands for
    `re.sub(r'offline_file\s*=\s*".*"', line, block)`. */
module ConfigEdit {
  import opened Text

  type Substitution = (string, string) -> string

  function SectionHeader(provider: string): string {
    "[integrations." + provider + "]"
  }

  function OfflineLine(path: string): string {
    "offline_file = \"" + path + "\""
  }

  /** The section appended when the provider has none: disabled, with an
      empty key and the offline file. */
  function NewSection(provider: string, path: string): string {
    "\n" + SectionHeader(provider) + Defaults + OfflineLine(path) + "\n"
  }

  /** The lines between the new header and the offline file. */
  const Defaults: string := "\nenabled = false\napi_key = \"\"\n"

  predicate EndsWith(s: string, p: string) {
    |p| <= |s| && s[|s| - |p|..] == p
  }

  /** `text.index(section)`: where the first occurrence of the header starts. */
  function SectionStart(text: string, header: string): (start: nat)
    requires Contains(text, header)
    ensures MatchAt(text, header, start)
    ensures forall j :: 0 <= j < start ==> !MatchAt(text, header, j)
  {
    Find(text, header, 0)
  }

  /** Where the section ends: the next "\n[" after its header, or the end
      of the text. */
  function SectionEnd(text: string, header: string): (end: nat)
    requires Contains(text, header)
    ensures SectionStart(text, header) + |header| <= end <= |text|
    ensures end == |text| || MatchAt(text, "\n[", end)
    ensures forall j :: SectionStart(text, header) + |header| <= j < end ==> !MatchAt(text, "\n[", j)
  {
    var from := SectionStart(text, header) + |header|;
    var next := Find(text, "\n[", from);
    if next == -1 then
      assert forall j :: from <= j < |text| ==> !MatchAt(text, "\n[", j);
      |text|
    else next
  }

  /** The section after the edit: the offline-file assignment replaced
      when the block mentions `offline_file`, otherwise appended. */
  function EditBlock(block: string, line: string, subst: Substitution): string {
    if Contains(block, "offline_file") then subst(block, line)
    else RStrip(block) + "\n" + line + "\n"
  }

  /** The new config text. */
  function SetOfflineFile(text: string, provider: string, path: string, subst: Substitution): string {
    var header := SectionHeader(provider);
    if Contains(text, header) then
      var start := SectionStart(text, header);
      var end := SectionEnd(text, header);
      text[..start] + EditBlock(text[start..end], OfflineLine(path), subst) + text[end..]
    else
      RStrip(text) + NewSection(provider, path)
  }

  // ---------------------------------------------------------------------

  /** `p` occurs in `a + p + b`, right after `a`. */
  lemma ContainsMiddle(a: string, p: string, b: string)
    ensures MatchAt(a + p + b, p, |a|) && Contains(a + p + b, p)
  {
    var s := a + p + b;
    assert s[|a|..|a| + |p|] == p;
    assert MatchAt(s, p, |a|);
    ContainsIff(s, p);
  }

  lemma AppendedPrefix(base: string, sec: string)
    ensures StartsWith(base + sec, base)
  {
    assert (base + sec)[..|base|] == base;
  }

  lemma AppendedSuffix(base: string, sec: string, last: string)
    requires EndsWith(sec, last)
    ensures EndsWith(base + sec, last)
  {
    var r := base + sec;
    assert r[|r| - |last|..] == sec[|sec| - |last|..];
  }

  lemma SectionParts(provider: string, path: string)
    ensures var sec := NewSection(provider, path);
            var header := SectionHeader(provider);
            var line := OfflineLine(path);
            && sec[1..1 + |header|] == header
            && sec[1 + |header| + |Defaults|..1 + |header| + |Defaults| + |line|] == line
            && EndsWith(sec, line + "\n")
  {
    var header := SectionHeader(provider);
    var line := OfflineLine(path);
    var sec := NewSection(provider, path);
    assert sec == "\n" + header + Defaults + line + "\n";
    var l := 1 + |header| + |Defaults|;
    assert sec[l..l + |line| + 1] == line + "\n";
  }

  /** The new section is a newline, then the header, the defaults and the
      offline line. */
  lemma SectionTail(provider: string, path: string)
    ensures EndsWith(NewSection(provider, path), SectionHeader(provider) + Defaults + OfflineLine(path) + "\n")
  {
    var sec := NewSection(provider, path);
    var tail := SectionHeader(provider) + Defaults + OfflineLine(path) + "\n";
    assert sec == "\n" + tail;
    assert sec[|sec| - |tail|..] == tail;
  }

  lemma ContainsShifted(base: string, sec: string, p: string, i: nat)
    requires i + |p| <= |sec| && sec[i..i + |p|] == p
    ensures Contains(base + sec, p)
  {
    var r := base + sec;
    assert r[|base| + i..|base| + i + |p|] == p;
    ContainsAt(r, p, |base| + i);
  }

  /** Without the section, the result is exactly the old text (trailing
      whitespace dropped) followed by the new section: a blank line, the
      header, `enabled = false`, `api_key = ""` and the offline line. */
  lemma MissingSectionAppended(text: string, provider: string, path: string, subst: Substitution)
    requires !Contains(text, SectionHeader(provider))
    ensures var r := SetOfflineFile(text, provider, path, subst);
            && StartsWith(r, RStrip(text))
            && EndsWith(r, OfflineLine(path) + "\n")
            && EndsWith(r, SectionHeader(provider) + Defaults + OfflineLine(path) + "\n")
            && Contains(r, SectionHeader(provider))
            && Contains(r, OfflineLine(path))
            && EndsWith(r, NewSection(provider, path))
            && |r| == |RStrip(text)| + |NewSection(provider, path)|
  {
    var base, sec := RStrip(text), NewSection(provider, path);
    var header, line := SectionHeader(provider), OfflineLine(path);
    assert SetOfflineFile(text, provider, path, subst) == base + sec;
    SectionParts(provider, path);
    SectionTail(provider, path);
    AppendedPrefix(base, sec);
    AppendedSuffix(base, sec, line + "\n");
    AppendedSuffix(base, sec, header + Defaults + line + "\n");
    ContainsShifted(base, sec, header, 1);
    ContainsShifted(base, sec, line, 1 + |header| + |Defaults|);
    assert sec[|sec| - |sec|..] == sec;
    AppendedSuffix(base, sec, sec);
  }

  /** With the section present, everything before it and everything from
      the next section on is kept. */
  lemma OutsideSectionKept(text: string, provider: string, path: string, subst: Substitution)
    requires Contains(text, SectionHeader(provider))
    ensures var start := SectionStart(text, SectionHeader(provider));
            var end := SectionEnd(text, SectionHeader(provider));
            var r := SetOfflineFile(text, provider, path, subst);
            StartsWith(r, text[..start]) && EndsWith(r, text[end..])
  {
    var header := SectionHeader(provider);
    var start := SectionStart(text, header);
    var end := SectionEnd(text, header);
    var r := SetOfflineFile(text, provider, path, subst);
    var mid := EditBlock(text[start..end], OfflineLine(path), subst);
    assert r == text[..start] + mid + text[end..];
    assert r[..start] == text[..start];
    assert r[|r| - |text[end..]|..] == text[end..];
  }

  lemma RStripKeepsHeader(block: string, header: string)
    requires StartsWith(block, header) && header != [] && !IsSpace(header[|header| - 1])
    ensures StartsWith(RStrip(block), header)
  {
    assert block[|header| - 1] == header[|header| - 1];
  }

  /** The first match is what `find` returns. */
  lemma FindFirst(s: string, p: string, i: nat)
    requires MatchAt(s, p, i) && forall j :: 0 <= j < i ==> !MatchAt(s, p, j)
    ensures Find(s, p, 0) == i
  {
  }

  /** Strings agreeing up to the end of a first match have no earlier one. */
  lemma SamePrefixNoEarlierMatch(s: string, t: string, p: string, i: nat)
    requires i + |p| <= |s| && i + |p| <= |t| && s[..i + |p|] == t[..i + |p|]
    requires forall j :: 0 <= j < i ==> !MatchAt(s, p, j)
    ensures forall j :: 0 <= j < i ==> !MatchAt(t, p, j)
  {
    forall j | 0 <= j < i
      ensures !MatchAt(t, p, j)
    {
      var k := j + |p|;
      assert t[j..k] == t[..i + |p|][j..k] == s[..i + |p|][j..k] == s[j..k];
      assert !MatchAt(s, p, j);
    }
  }

  /** Putting the header back after the part of the text before its first
      occurrence keeps that occurrence the first one. */
  lemma HeaderStaysFirst(text: string, header: string, start: nat, tail: string)
    requires start + |header| <= |text|
    requires MatchAt(text, header, start) && forall j :: 0 <= j < start ==> !MatchAt(text, header, j)
    ensures Find(text[..start] + header + tail, header, 0) == start
  {
    var pre := text[..start];
    var r := pre + header + tail;
    ContainsMiddle(pre, header, tail);
    assert r[..start + |header|] == text[..start + |header|] by {
      assert text[..start + |header|] == pre + header;
      assert r[..start + |header|] == pre + header;
    }
    SamePrefixNoEarlierMatch(text, r, header, start);
    FindFirst(r, header, start);
  }

  /** `p` occurs in `s` wherever a slice of `s` equals it. */
  lemma ContainsAt(s: string, p: string, i: nat)
    requires i + |p| <= |s| && s[i..i + |p|] == p
    ensures Contains(s, p)
  {
    assert MatchAt(s, p, i);
    ContainsIff(s, p);
  }

  lemma SpliceRegroup<T>(a: seq<T>, h: seq<T>, y: seq<T>, c: seq<T>, d: seq<T>, e: seq<T>, f: seq<T>)
    ensures a + (h + y) + c + d + e + f == a + h + (y + c + d + e + f)
  {
    calc {
      a + (h + y) + c + d + e + f;
      == { assert a + (h + y) == a + h + y; }
      a + h + y + c + d + e + f;
      == { assert y + c + d + e + f == y + (c + d + e + f); }
      a + h + (y + c + d + e + f);
    }
  }

  /** Splicing a block that opens with the header in place of the first
      occurrence leaves that occurrence the first one. */
  lemma SplicedHeaderFirst(text: string, header: string, start: nat, end: nat, sb: string, line: string)
    requires start + |header| <= end <= |text|
    requires MatchAt(text, header, start) && forall j :: 0 <= j < start ==> !MatchAt(text, header, j)
    requires StartsWith(sb, header)
    ensures Find(text[..start] + sb + "\n" + line + "\n" + text[end..], header, 0) == start
  {
    var pre := text[..start];
    var r := pre + sb + "\n" + line + "\n" + text[end..];
    var rest := sb[|header|..];
    var tail := rest + "\n" + line + "\n" + text[end..];
    assert sb == header + rest;
    SpliceRegroup(pre, header, rest, "\n", line, "\n", text[end..]);
    HeaderStaysFirst(text, header, start, tail);
  }

  /** The appended line is in the spliced text. */
  lemma SplicedLinePresent(text: string, start: nat, end: nat, sb: string, line: string)
    requires start <= end <= |text|
    ensures Contains(text[..start] + sb + "\n" + line + "\n" + text[end..], line)
  {
    var pre := text[..start];
    var r := pre + sb + "\n" + line + "\n" + text[end..];
    var l := |pre| + |sb| + 1;
    assert r[l..l + |line|] == line;
    ContainsAt(r, line, l);
  }

  lemma Regroup(a: string, b: string, c: string, d: string, e: string, f: string)
    ensures a + (b + c + d + e) + f == a + b + c + d + e + f
  {
  }

  /** A section without `offline_file` gets the line appended after its
      trailing whitespace is dropped. */
  lemma OfflineLineAppended(text: string, provider: string, path: string, subst: Substitution)
    requires Contains(text, SectionHeader(provider))
    requires !Contains(text[SectionStart(text, SectionHeader(provider))..SectionEnd(text, SectionHeader(provider))], "offline_file")
    ensures var header := SectionHeader(provider);
            var start := SectionStart(text, header);
            var end := SectionEnd(text, header);
            SetOfflineFile(text, provider, path, subst) ==
            text[..start] + RStrip(text[start..end]) + "\n" + OfflineLine(path) + "\n" + text[end..]
  {
    var header := SectionHeader(provider);
    var start := SectionStart(text, header);
    var end := SectionEnd(text, header);
    var r := SetOfflineFile(text, provider, path, subst);
    assert r == text[..start] + (RStrip(text[start..end]) + "\n" + OfflineLine(path) + "\n") + text[end..];
    Regroup(text[..start], RStrip(text[start..end]), "\n", OfflineLine(path), "\n", text[end..]);
  }

  /** The block of a found section opens with its header, also once
      right-stripped. */
  lemma BlockKeepsHeader(text: string, header: string)
    requires Contains(text, header) && header != [] && !IsSpace(header[|header| - 1])
    ensures StartsWith(RStrip(text[SectionStart(text, header)..SectionEnd(text, header)]), header)
  {
    var start := SectionStart(text, header);
    var block := text[start..SectionEnd(text, header)];
    assert block[..|header|] == text[start..start + |header|];
    RStripKeepsHeader(block, header);
  }

  /** After that, the section is still found at the same place and holds
      the line. */
  lemma AppendedLineFound(text: string, provider: string, path: string, subst: Substitution)
    requires Contains(text, SectionHeader(provider))
    requires !Contains(text[SectionStart(text, SectionHeader(provider))..SectionEnd(text, SectionHeader(provider))], "offline_file")
    ensures var header := SectionHeader(provider);
            var r := SetOfflineFile(text, provider, path, subst);
            && Contains(r, header) && SectionStart(r, header) == SectionStart(text, header)
            && Contains(r, OfflineLine(path))
  {
    var header := SectionHeader(provider);
    var line := OfflineLine(path);
    var start := SectionStart(text, header);
    var end := SectionEnd(text, header);
    var sb := RStrip(text[start..end]);
    var r := SetOfflineFile(text, provider, path, subst);
    OfflineLineAppended(text, provider, path, subst);
    assert r == text[..start] + sb + "\n" + line + "\n" + text[end..];
    assert header[|header| - 1] == ']';
    BlockKeepsHeader(text, header);
    SplicedHeaderFirst(text, header, start, end, sb, line);
    SplicedLinePresent(text, start, end, sb, line);
  }

  /** With `offline_file` in the section, the result is the substitution's
      block spliced in place of the section. */
  lemma OfflineLineReplaced(text: string, provider: string, path: string, subst: Substitution)
    requires Contains(text, SectionHeader(provider))
    requires Contains(text[SectionStart(text, SectionHeader(provider))..SectionEnd(text, SectionHeader(provider))], "offline_file")
    ensures var header := SectionHeader(provider);
            var start := SectionStart(text, header);
            var end := SectionEnd(text, header);
            SetOfflineFile(text, provider, path, subst) ==
            text[..start] + subst(text[start..end], OfflineLine(path)) + text[end..]
  {
  }
}
