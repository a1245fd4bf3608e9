/** Replacing one host's block in an SSH configuration text
    (crates/desktop-bridge/src/ssh_config.rs). */
module SshConfig {
  import opened Text

  // --------------------------------------------------------------------- lines

  function StripCr(line: string): string {
    if line != [] && line[|line| - 1] == '\r' then line[..|line| - 1] else line
  }

  function LineEnd(s: string): (i: nat)
    ensures i <= |s| && (i < |s| ==> s[i] == '\n')
    ensures forall j :: 0 <= j < i ==> s[j] != '\n'
  {
    if s == [] || s[0] == '\n' then 0 else 1 + LineEnd(s[1..])
  }

  /** The lines of a text, without their line endings. */
  function Lines(s: string): seq<string>
    decreases |s|
  {
    var i := LineEnd(s);
    if s == [] then []
    else if i == |s| then [s]
    else [StripCr(s[..i])] + Lines(s[i + 1..])
  }

  function Unlines(lines: seq<string>): string {
    if lines == [] then "" else lines[0] + "\n" + Unlines(lines[1..])
  }

  // ------------------------------------------------------------ kinds of lines

  /** The marker of the host, another line that ends an indented section, or a
      blank or indented line. */
  datatype Kind = Marker | Top | Inner

  function HostMarker(alias: string): string {
    "Host " + alias
  }

  predicate StopsSkipping(line: string) {
    || StartsWith(line, "Host ")
    || (!StartsWith(line, " ") && !StartsWith(line, "\t") && Trim(line) != "")
  }

  function KindIn(alias: string): string -> Kind {
    (line: string) =>
      if Trim(line) == HostMarker(alias) then Marker
      else if StopsSkipping(line) then Top
      else Inner
  }

  predicate AllSpace(s: string) {
    forall i :: 0 <= i < |s| ==> IsWhitespace(s[i])
  }

  /** A text that does not start or end with white space. */
  predicate IsTrimmed(s: string) {
    s != "" ==> !IsWhitespace(s[0]) && !IsWhitespace(s[|s| - 1])
  }

  lemma {:induction false} TrimStartSpace(a: string, s: string)
    requires AllSpace(a)
    ensures TrimStart(a + s) == TrimStart(s)
  {
    if a == "" {
      assert a + s == s;
    } else {
      assert (a + s)[1..] == a[1..] + s;
      TrimStartSpace(a[1..], s);
    }
  }

  lemma {:induction false} TrimEndSpace(s: string, b: string)
    requires AllSpace(b)
    ensures TrimEnd(s + b) == TrimEnd(s)
  {
    if b == "" {
      assert s + b == s;
    } else {
      assert (s + b)[..|s + b| - 1] == s + b[..|b| - 1];
      TrimEndSpace(s, b[..|b| - 1]);
    }
  }

  lemma {:induction false} TrimStartParts(s: string) returns (a: string)
    ensures AllSpace(a) && s == a + TrimStart(s)
    ensures TrimStart(s) != "" ==> !IsWhitespace(TrimStart(s)[0])
  {
    a := "";
    if s != [] && IsWhitespace(s[0]) {
      var rest := TrimStartParts(s[1..]);
      a := [s[0]] + rest;
    }
  }

  lemma {:induction false} TrimEndParts(s: string) returns (b: string)
    ensures AllSpace(b) && s == TrimEnd(s) + b
    ensures TrimEnd(s) != "" ==> !IsWhitespace(TrimEnd(s)[|TrimEnd(s)| - 1])
  {
    b := "";
    if s != [] && IsWhitespace(s[|s| - 1]) {
      var rest := TrimEndParts(s[..|s| - 1]);
      b := rest + [s[|s| - 1]];
    }
  }

  /** A line that is `text` with nothing but white space around it. */
  ghost predicate IsPadded(line: string, text: string) {
    IsTrimmed(text) && exists a, b :: AllSpace(a) && AllSpace(b) && line == a + text + b
  }

  lemma TrimIs(line: string, text: string)
    ensures Trim(line) == text <==> IsPadded(line, text)
  {
    var a := TrimStartParts(line);
    var b := TrimEndParts(TrimStart(line));
    assert line == a + Trim(line) + b;
    if Trim(line) == text {
      assert text != "" ==> text[0] == TrimStart(line)[0];
    }
    if IsTrimmed(text) {
      forall c, d | AllSpace(c) && AllSpace(d) && line == c + text + d ensures Trim(line) == text {
        PaddedTrims(c, text, d);
      }
    }
  }

  lemma PaddedTrims(a: string, text: string, b: string)
    requires AllSpace(a) && AllSpace(b) && IsTrimmed(text)
    ensures Trim(a + text + b) == text
  {
    assert a + text + b == a + (text + b);
    TrimStartSpace(a, text + b);
    if text == "" {
      assert text + b == b && b + "" == b;
      TrimStartSpace(b, "");
    } else {
      TrimEndSpace(text, b);
    }
  }

  /** Which lines are the host's marker, and which belong to the host or section
      before them: blank lines, and those that start with a space or a tab. */
  lemma LineKinds(alias: string, line: string)
    ensures KindIn(alias)(line) == Marker <==> IsPadded(line, "Host " + alias)
    ensures KindIn(alias)(line) == Inner
            <==> !IsPadded(line, "Host " + alias) && (IsPadded(line, "") || (line != "" && (line[0] == ' ' || line[0] == '\t')))
  {
    TrimIs(line, "Host " + alias);
    TrimIs(line, "");
    BlankIs(line);
    if StartsWith(line, "Host ") {
      assert line[0] == 'H';
    }
  }

  lemma BlankIs(line: string)
    ensures IsPadded(line, "") <==> AllSpace(line)
  {
    if AllSpace(line) {
      assert AllSpace("") && line == line + "" + "";
    }
  }

  // ---------------------------------------------------------------- the scan

  function Scan(lines: seq<string>, kind: string -> Kind, skip: bool): seq<string> {
    if lines == [] then []
    else if kind(lines[0]) == Marker then Scan(lines[1..], kind, true)
    else if skip && kind(lines[0]) == Inner then Scan(lines[1..], kind, true)
    else [lines[0]] + Scan(lines[1..], kind, false)
  }

  lemma UnlinesNext(done: string, line: string, rest: seq<string>)
    ensures done + Unlines([line] + rest) == done + line + "\n" + Unlines(rest)
  {
    assert ([line] + rest)[1..] == rest;
  }

  /** Replace the host's block, or append it: the scan over the lines. */
  method ReplaceHostBlock(config: string, alias: string, newBlock: string) returns (result: string)
    ensures result == Replaced(config, alias, newBlock)
  {
    var lines := Lines(config);
    ghost var kind := KindIn(alias);
    result := "";
    var skip := false;
    for i := 0 to |lines|
      invariant result + Unlines(Scan(lines[i..], kind, skip)) == Unlines(Scan(lines, kind, false))
    {
      var line := lines[i];
      assert lines[i..][1..] == lines[i + 1..];
      if Trim(line) == HostMarker(alias) {
        skip := true;
        continue;
      }
      if skip {
        if StopsSkipping(line) {
          skip := false;
          UnlinesNext(result, line, Scan(lines[i + 1..], kind, false));
          result := result + line + "\n";
        }
        continue;
      }
      UnlinesNext(result, line, Scan(lines[i + 1..], kind, false));
      result := result + line + "\n";
    }
    result := result + newBlock;
  }

  // ------------------------------------------------------------------ segments

  /** How many lines follow before the next header. */
  function BodyLength(lines: seq<string>, kind: string -> Kind): (n: nat)
    ensures n <= |lines|
    ensures forall i :: 0 <= i < n ==> kind(lines[i]) == Inner
    ensures n < |lines| ==> kind(lines[n]) != Inner
  {
    if lines == [] || kind(lines[0]) != Inner then 0 else 1 + BodyLength(lines[1..], kind)
  }

  /** The lines cut before every header; only the first segment may lack one. */
  function Segments(lines: seq<string>, kind: string -> Kind): seq<seq<string>>
    decreases |lines|
  {
    if lines == [] then []
    else
      var n := 1 + BodyLength(lines[1..], kind);
      [lines[..n]] + Segments(lines[n..], kind)
  }

  /** The lines of all segments but those of the host. */
  function OtherSegments(segments: seq<seq<string>>, kind: string -> Kind): seq<string> {
    if segments == [] then []
    else
      (if segments[0] != [] && kind(segments[0][0]) == Marker then [] else segments[0])
      + OtherSegments(segments[1..], kind)
  }

  lemma {:induction false} ScanBody(lines: seq<string>, kind: string -> Kind, n: nat, skip: bool)
    requires n <= |lines| && forall i :: 0 <= i < n ==> kind(lines[i]) == Inner
    ensures Scan(lines, kind, skip) == (if skip then [] else lines[..n]) + Scan(lines[n..], kind, skip)
    decreases |lines|
  {
    if n == 0 {
      assert lines[0..] == lines;
      Nothing(Scan(lines, kind, skip));
    } else {
      ScanBody(lines[1..], kind, n - 1, skip);
      SegmentEnds(lines, n - 1);
      if !skip {
        Prepend(lines[0], lines[1..][..n - 1], Scan(lines[n..], kind, false));
      }
    }
  }

  lemma ScanAtHeader(lines: seq<string>, kind: string -> Kind)
    requires lines != [] ==> kind(lines[0]) != Inner
    ensures Scan(lines, kind, true) == Scan(lines, kind, false)
  {
  }

  lemma FirstSegment(lines: seq<string>, kind: string -> Kind)
    requires lines != []
    ensures var n := 1 + BodyLength(lines[1..], kind);
            OtherSegments(Segments(lines, kind), kind)
            == (if kind(lines[0]) == Marker then [] else lines[..n]) + OtherSegments(Segments(lines[n..], kind), kind)
  {
    var n := 1 + BodyLength(lines[1..], kind);
    var others := Segments(lines[n..], kind);
    assert ([lines[..n]] + others)[1..] == others;
  }

  /** The scan of one segment, followed by a header or nothing. */
  lemma ScanSegment(lines: seq<string>, kind: string -> Kind, n: nat)
    requires lines != [] && n <= |lines| - 1
    requires forall i :: 0 <= i < n ==> kind(lines[1..][i]) == Inner
    requires 1 + n < |lines| ==> kind(lines[1 + n]) != Inner
    ensures Scan(lines, kind, false)
         == (if kind(lines[0]) == Marker then [] else lines[..1 + n]) + Scan(lines[1 + n..], kind, false)
  {
    var tail, rest := lines[1..], lines[1 + n..];
    var skip := kind(lines[0]) == Marker;
    SegmentEnds(lines, n);
    ScanBody(tail, kind, n, skip);
    ScanAtHeader(rest, kind);
    var after := Scan(rest, kind, false);
    assert Scan(lines, kind, false) == (if skip then [] else [lines[0]]) + Scan(tail, kind, skip);
    if skip {
      Nothing(after);
    } else {
      Prepend(lines[0], tail[..n], after);
    }
  }

  lemma SegmentEnds(lines: seq<string>, n: nat)
    requires lines != [] && n <= |lines| - 1
    ensures lines[1..][n..] == lines[1 + n..]
    ensures [lines[0]] + lines[1..][..n] == lines[..1 + n]
  {
  }

  lemma Nothing(a: seq<string>)
    ensures [] + ([] + a) == [] + a == a
  {
  }

  lemma Prepend(x: string, a: seq<string>, b: seq<string>)
    ensures [x] + (a + b) == [x] + a + b
  {
  }

  /** The scan drops exactly the host's segments and keeps the others verbatim
      and in order. */
  lemma {:induction false} ScanIsSegmentFilter(lines: seq<string>, kind: string -> Kind)
    ensures Scan(lines, kind, false) == OtherSegments(Segments(lines, kind), kind)
    decreases |lines|
  {
    if lines != [] {
      var n := BodyLength(lines[1..], kind);
      FirstSegment(lines, kind);
      ScanSegment(lines, kind, n);
      ScanIsSegmentFilter(lines[1 + n..], kind);
    }
  }

  // -------------------------------------------------------------- the markers

  function CountMarkers(lines: seq<string>, kind: string -> Kind): nat {
    if lines == [] then 0 else (if kind(lines[0]) == Marker then 1 else 0) + CountMarkers(lines[1..], kind)
  }

  lemma {:induction false} ScanHasNoMarkers(lines: seq<string>, kind: string -> Kind, skip: bool)
    ensures forall i :: 0 <= i < |Scan(lines, kind, skip)| ==> kind(Scan(lines, kind, skip)[i]) != Marker
  {
    if lines != [] {
      ScanHasNoMarkers(lines[1..], kind, true);
      ScanHasNoMarkers(lines[1..], kind, false);
    }
  }

  lemma {:induction false} CountAfterNone(a: seq<string>, b: seq<string>, kind: string -> Kind)
    requires forall i :: 0 <= i < |a| ==> kind(a[i]) != Marker
    ensures CountMarkers(a + b, kind) == CountMarkers(b, kind)
  {
    if a == [] {
      assert a + b == b;
    } else {
      assert (a + b)[1..] == a[1..] + b;
      CountAfterNone(a[1..], b, kind);
    }
  }

  // --------------------------------------------------------- lines of the text

  ghost predicate OneLine(s: string) {
    forall i :: 0 <= i < |s| ==> s[i] != '\n'
  }

  function StripAll(lines: seq<string>): (r: seq<string>)
    ensures |r| == |lines| && forall i :: 0 <= i < |r| ==> r[i] == StripCr(lines[i])
  {
    seq(|lines|, i requires 0 <= i < |lines| => StripCr(lines[i]))
  }

  lemma {:induction false} LineEndOf(line: string, rest: string)
    requires OneLine(line)
    ensures LineEnd(line + "\n" + rest) == |line|
  {
    if line != [] {
      assert (line + "\n" + rest)[1..] == line[1..] + "\n" + rest;
      LineEndOf(line[1..], rest);
    }
  }

  lemma {:induction false} LinesAreOneLine(s: string)
    ensures forall i :: 0 <= i < |Lines(s)| ==> OneLine(Lines(s)[i])
    decreases |s|
  {
    var i := LineEnd(s);
    if s != [] && i < |s| {
      LinesAreOneLine(s[i + 1..]);
    }
  }

  lemma LinesStep(line: string, tail: string)
    requires OneLine(line)
    ensures Lines(line + "\n" + tail) == [StripCr(line)] + Lines(tail)
  {
    var text := line + "\n" + tail;
    LineEndOf(line, tail);
    assert text[..|line|] == line && text[|line| + 1..] == tail;
  }

  /** Reading back written lines drops a carriage return at their ends. */
  lemma {:induction false} LinesOfUnlines(lines: seq<string>, rest: string)
    requires forall i :: 0 <= i < |lines| ==> OneLine(lines[i])
    ensures Lines(Unlines(lines) + rest) == StripAll(lines) + Lines(rest)
  {
    if lines == [] {
      assert Unlines(lines) + rest == rest;
      assert StripAll(lines) + Lines(rest) == Lines(rest);
    } else {
      var tail := Unlines(lines[1..]) + rest;
      assert Unlines(lines) + rest == lines[0] + "\n" + tail;
      LinesStep(lines[0], tail);
      LinesOfUnlines(lines[1..], rest);
      Prepend(StripCr(lines[0]), StripAll(lines[1..]), Lines(rest));
      assert StripAll(lines) == [StripCr(lines[0])] + StripAll(lines[1..]);
    }
  }

  lemma {:induction false} ScanIsOneLine(lines: seq<string>, kind: string -> Kind, skip: bool)
    requires forall i :: 0 <= i < |lines| ==> OneLine(lines[i])
    ensures forall i :: 0 <= i < |Scan(lines, kind, skip)| ==> OneLine(Scan(lines, kind, skip)[i])
  {
    if lines != [] {
      ScanIsOneLine(lines[1..], kind, true);
      ScanIsOneLine(lines[1..], kind, false);
    }
  }

  /** Trimming does not see the carriage return, so neither does the kind. */
  lemma {:induction false} TrimIgnoresCr(line: string)
    ensures Trim(StripCr(line)) == Trim(line)
    decreases |line|
  {
    if line != [] && line[|line| - 1] == '\r' {
      var less := line[..|line| - 1];
      assert IsWhitespace('\r');
      if less != [] && IsWhitespace(less[0]) {
        assert line[1..] != [] && line[1..][|line[1..]| - 1] == '\r';
        assert less[1..] == line[1..][..|line[1..]| - 1];
        TrimIgnoresCr(line[1..]);
      } else if less == [] {
        assert line[1..] == [];
      } else {
        assert TrimStart(line) == line && TrimStart(less) == less;
      }
    }
  }

  lemma PrefixIgnoresCr(line: string, prefix: string)
    requires prefix != [] && prefix[|prefix| - 1] != '\r'
    ensures StartsWith(StripCr(line), prefix) <==> StartsWith(line, prefix)
  {
    if StartsWith(line, prefix) && |prefix| == |line| {
      assert line[|line| - 1] == prefix[|prefix| - 1];
    }
  }

  lemma KindIgnoresCr(alias: string, line: string)
    ensures KindIn(alias)(StripCr(line)) == KindIn(alias)(line)
  {
    TrimIgnoresCr(line);
    PrefixIgnoresCr(line, "Host ");
    PrefixIgnoresCr(line, " ");
    PrefixIgnoresCr(line, "\t");
  }

  // ------------------------------------------------------ the whole replacement

  function Survivors(config: string, alias: string): seq<string> {
    Scan(Lines(config), KindIn(alias), false)
  }

  function Replaced(config: string, alias: string, newBlock: string): string {
    Unlines(Survivors(config, alias)) + newBlock
  }

  /** The lines of the result: the surviving lines, then the new block. */
  lemma LinesOfReplaced(config: string, alias: string, newBlock: string)
    ensures Lines(Replaced(config, alias, newBlock)) == StripAll(Survivors(config, alias)) + Lines(newBlock)
    ensures forall i :: 0 <= i < |Survivors(config, alias)| ==>
              KindIn(alias)(StripAll(Survivors(config, alias))[i]) != Marker
  {
    var survivors := Survivors(config, alias);
    LinesAreOneLine(config);
    ScanIsOneLine(Lines(config), KindIn(alias), false);
    LinesOfUnlines(survivors, newBlock);
    ScanHasNoMarkers(Lines(config), KindIn(alias), false);
    forall i | 0 <= i < |survivors| ensures KindIn(alias)(StripAll(survivors)[i]) != Marker {
      KindIgnoresCr(alias, survivors[i]);
    }
  }

  /** The only marker lines left are those of the new block. */
  lemma MarkersAreTheNewOnes(config: string, alias: string, newBlock: string)
    ensures CountMarkers(Lines(Replaced(config, alias, newBlock)), KindIn(alias)) == CountMarkers(Lines(newBlock), KindIn(alias))
  {
    LinesOfReplaced(config, alias, newBlock);
    CountAfterNone(StripAll(Survivors(config, alias)), Lines(newBlock), KindIn(alias));
  }

  /** `k` blank lines, the host's marker, and its indented section. */
  ghost predicate HostBlock(lines: seq<string>, alias: string, k: nat) {
    && k < |lines|
    && (forall i :: 0 <= i < k ==> Trim(lines[i]) == "" && KindIn(alias)(lines[i]) == Inner)
    && KindIn(alias)(lines[k]) == Marker
    && (forall i :: k < i < |lines| ==> KindIn(alias)(lines[i]) == Inner)
  }

  lemma {:induction false} ScanAfterNoMarkers(a: seq<string>, b: seq<string>, kind: string -> Kind)
    requires forall i :: 0 <= i < |a| ==> kind(a[i]) != Marker
    ensures Scan(a + b, kind, false) == a + Scan(b, kind, false)
  {
    if a == [] {
      assert a + b == b;
      assert [] + Scan(b, kind, false) == Scan(b, kind, false);
    } else {
      assert (a + b)[1..] == a[1..] + b;
      ScanAfterNoMarkers(a[1..], b, kind);
      Prepend(a[0], a[1..], Scan(b, kind, false));
      assert [a[0]] + a[1..] == a;
    }
  }

  lemma ScanHostBlock(lines: seq<string>, alias: string, k: nat)
    requires HostBlock(lines, alias, k)
    ensures Scan(lines, KindIn(alias), false) == lines[..k]
  {
    var kind := KindIn(alias);
    var block := lines[k..];
    assert lines == lines[..k] + block;
    ScanAfterNoMarkers(lines[..k], block, kind);
    ScanBody(block[1..], kind, |block| - 1, true);
    assert block[1..][|block| - 1..] == [];
    assert [] + Scan([], kind, true) == [];
    assert lines[..k] + [] == lines[..k];
  }

  /** Replacing the host's block a second time changes no surviving line and
      adds only the blank lines that come before the new block's marker. */
  lemma ReplacingTwiceAddsBlankLines(config: string, alias: string, newBlock: string, k: nat)
    requires HostBlock(Lines(newBlock), alias, k)
    ensures Survivors(Replaced(config, alias, newBlock), alias)
         == StripAll(Survivors(config, alias)) + Lines(newBlock)[..k]
    ensures forall i :: 0 <= i < k ==> Trim(Lines(newBlock)[i]) == ""
  {
    LinesOfReplaced(config, alias, newBlock);
    ScanAfterNoMarkers(StripAll(Survivors(config, alias)), Lines(newBlock), KindIn(alias));
    ScanHostBlock(Lines(newBlock), alias, k);
  }

  // ----------------------------------------------------------- updating a host

  /** The block that is written for a host. */
  function EntryLines(alias: string, port: nat, keyPath: string, knownHosts: string): seq<string> {
    ["",
     HostMarker(alias),
     Setting("HostName", "127.0.0.1"),
     Setting("Port", Decimal(port)),
     Setting("User", "vk"),
     Setting("IdentityFile", keyPath),
     Setting("StrictHostKeyChecking", "no"),
     Setting("UserKnownHostsFile", knownHosts)]
  }

  function Setting(key: string, value: string): string {
    "    " + key + " " + value
  }

  function Entry(alias: string, port: nat, keyPath: string, knownHosts: string): string {
    Unlines(EntryLines(alias, port, keyPath, knownHosts))
  }

  lemma {:induction false} TrimEndIsPrefix(s: string)
    ensures TrimEnd(s) <= s
  {
    if s != [] && IsWhitespace(s[|s| - 1]) {
      TrimEndIsPrefix(s[..|s| - 1]);
    }
  }

  lemma TrimStartSkips(s: string)
    ensures TrimStart(" " + s) == TrimStart(s)
  {
    assert (" " + s)[1..] == s;
  }

  lemma TrimStartOfIndented(word: string)
    requires word != "" && !IsWhitespace(word[0])
    ensures TrimStart("    " + word) == word
  {
    TrimStartSkips(word);
    TrimStartSkips(" " + word);
    TrimStartSkips("  " + word);
    TrimStartSkips("   " + word);
    assert " " + (" " + word) == "  " + word && " " + ("  " + word) == "   " + word && " " + ("   " + word) == "    " + word;
  }

  /** A keyword that cannot be taken for the start of a host marker. */
  predicate IsKey(key: string) {
    |key| >= 4 && !IsWhitespace(key[0]) && (key[0] != 'H' || (|key| > 4 && key[4] != ' '))
  }

  lemma SettingIsInner(alias: string, key: string, value: string)
    requires IsKey(key)
    ensures KindIn(alias)(Setting(key, value)) == Inner
  {
    var line, word := Setting(key, value), key + " " + value;
    assert line == "    " + word;
    TrimStartOfIndented(word);
    TrimEndIsPrefix(word);
    NotTheMarker(alias, word, Trim(line));
    assert line[0] == ' ';
  }

  lemma NotTheMarker(alias: string, word: string, trimmed: string)
    requires |word| > 4 && (word[0] != 'H' || word[4] != ' ') && trimmed <= word
    ensures trimmed != HostMarker(alias)
  {
    assert HostMarker(alias)[0] == 'H' && HostMarker(alias)[4] == ' ';
  }

  lemma {:induction false} DecimalIsOneLine(n: nat)
    ensures OneLine(Decimal(n))
  {
    if n >= 10 {
      DecimalIsOneLine(n / 10);
    }
  }

  lemma SettingsHaveKeys()
    ensures IsKey("HostName") && IsKey("Port") && IsKey("User")
    ensures IsKey("IdentityFile") && IsKey("StrictHostKeyChecking") && IsKey("UserKnownHostsFile")
  {
  }

  lemma EntryKind(alias: string, port: nat, keyPath: string, knownHosts: string, i: nat)
    requires i < 8 && i != 1
    ensures KindIn(alias)(EntryLines(alias, port, keyPath, knownHosts)[i]) == Inner
  {
    SettingsHaveKeys();
    if i == 0 {
      assert Trim("") == "" && |HostMarker(alias)| >= 5;
    } else if i == 2 {
      SettingIsInner(alias, "HostName", "127.0.0.1");
    } else if i == 3 {
      SettingIsInner(alias, "Port", Decimal(port));
    } else if i == 4 {
      SettingIsInner(alias, "User", "vk");
    } else if i == 5 {
      SettingIsInner(alias, "IdentityFile", keyPath);
    } else if i == 6 {
      SettingIsInner(alias, "StrictHostKeyChecking", "no");
    } else {
      SettingIsInner(alias, "UserKnownHostsFile", knownHosts);
    }
  }

  lemma SettingIsOneLine(key: string, value: string)
    requires OneLine(key) && OneLine(value)
    ensures OneLine(Setting(key, value))
  {
  }

  lemma EntryLine(alias: string, port: nat, keyPath: string, knownHosts: string, i: nat)
    requires OneLine(alias) && OneLine(keyPath) && OneLine(knownHosts) && i < 8
    ensures OneLine(EntryLines(alias, port, keyPath, knownHosts)[i])
  {
    DecimalIsOneLine(port);
    SettingIsOneLine("HostName", "127.0.0.1");
    SettingIsOneLine("Port", Decimal(port));
    SettingIsOneLine("User", "vk");
    SettingIsOneLine("IdentityFile", keyPath);
    SettingIsOneLine("StrictHostKeyChecking", "no");
    SettingIsOneLine("UserKnownHostsFile", knownHosts);
  }

  lemma WholeText(lines: seq<string>)
    requires forall i :: 0 <= i < |lines| ==> OneLine(lines[i])
    ensures Lines(Unlines(lines)) == StripAll(lines)
  {
    LinesOfUnlines(lines, "");
    assert Unlines(lines) + "" == Unlines(lines) && StripAll(lines) + [] == StripAll(lines);
  }

  lemma LinesOfEntry(alias: string, port: nat, keyPath: string, knownHosts: string)
    requires OneLine(alias) && OneLine(keyPath) && OneLine(knownHosts)
    ensures Lines(Entry(alias, port, keyPath, knownHosts)) == StripAll(EntryLines(alias, port, keyPath, knownHosts))
  {
    var lines := EntryLines(alias, port, keyPath, knownHosts);
    forall i | 0 <= i < |lines| ensures OneLine(lines[i]) {
      EntryLine(alias, port, keyPath, knownHosts, i);
    }
    WholeText(lines);
  }

  lemma {:induction false} HostBlockHasOneMarker(lines: seq<string>, alias: string, k: nat)
    requires HostBlock(lines, alias, k)
    ensures CountMarkers(lines, KindIn(alias)) == 1
  {
    var kind := KindIn(alias);
    assert lines == lines[..k] + lines[k..];
    CountAfterNone(lines[..k], lines[k..], kind);
    assert lines[k..][1..] + [] == lines[k..][1..];
    CountAfterNone(lines[k..][1..], [], kind);
  }

  /** Updating a host leaves exactly one marker line of it, and every further
      update adds exactly one blank line — provided trimming leaves the marker
      alone. Otherwise its block is never found again, so that every update
      appends one more. */
  lemma UpdateLeavesOneEntry(config: string, alias: string, port: nat, keyPath: string, knownHosts: string)
    requires OneLine(alias) && OneLine(keyPath) && OneLine(knownHosts)
    ensures var entry := Entry(alias, port, keyPath, knownHosts);
            var updated := Replaced(config, alias, entry);
            && CountMarkers(Lines(updated), KindIn(alias)) == (if Trim(HostMarker(alias)) == HostMarker(alias) then 1 else 0)
            && Survivors(updated, alias) == StripAll(Survivors(config, alias))
                 + (if Trim(HostMarker(alias)) == HostMarker(alias) then [""] else Lines(entry))
  {
    var lines := EntryLines(alias, port, keyPath, knownHosts);
    var entry, kind := Entry(alias, port, keyPath, knownHosts), KindIn(alias);
    LinesOfEntry(alias, port, keyPath, knownHosts);
    forall i | 0 <= i < |lines| ensures kind(Lines(entry)[i]) == if i == 1 then kind(lines[1]) else Inner {
      KindIgnoresCr(alias, lines[i]);
      if i != 1 {
        EntryKind(alias, port, keyPath, knownHosts, i);
      }
    }
    MarkersAreTheNewOnes(config, alias, entry);
    if kind(lines[1]) == Marker {
      HostBlockHasOneMarker(Lines(entry), alias, 1);
      ReplacingTwiceAddsBlankLines(config, alias, entry, 1);
      assert Lines(entry)[..1] == [""];
    } else {
      NoMarkerIsNotFound(config, alias, entry);
    }
  }

  lemma NoMarkerIsNotFound(config: string, alias: string, newBlock: string)
    requires forall i :: 0 <= i < |Lines(newBlock)| ==> KindIn(alias)(Lines(newBlock)[i]) != Marker
    ensures CountMarkers(Lines(newBlock), KindIn(alias)) == 0
    ensures Survivors(Replaced(config, alias, newBlock), alias) == StripAll(Survivors(config, alias)) + Lines(newBlock)
  {
    var a, b, kind := StripAll(Survivors(config, alias)), Lines(newBlock), KindIn(alias);
    LinesOfReplaced(config, alias, newBlock);
    assert b + [] == b;
    CountAfterNone(b, [], kind);
    ScanAfterNoMarkers(a, b, kind);
    ScanAfterNoMarkers(b, [], kind);
  }

  /** With an alias that ends in white space the block is never found again, and
      every update appends another. */
  lemma TrailingSpaceIsNotFound(config: string, alias: string, port: nat, keyPath: string, knownHosts: string)
    requires OneLine(alias) && OneLine(keyPath) && OneLine(knownHosts)
    requires alias != "" && IsWhitespace(alias[|alias| - 1])
    ensures var entry := Entry(alias, port, keyPath, knownHosts);
            var updated := Replaced(config, alias, entry);
            && CountMarkers(Lines(updated), KindIn(alias)) == 0
            && Survivors(updated, alias) == StripAll(Survivors(config, alias)) + Lines(entry)
  {
    var marker := HostMarker(alias);
    assert marker[0] == 'H' && marker[|marker| - 1] == alias[|alias| - 1];
    TrimEndIsPrefix(marker[..|marker| - 1]);
    assert |Trim(marker)| < |marker|;
    UpdateLeavesOneEntry(config, alias, port, keyPath, knownHosts);
  }

  /** The aliases the bridge makes: `vk-` and the digits and dashes of a UUID. */
  predicate IsHostAlias(alias: string) {
    StartsWith(alias, "vk-") && forall i :: 3 <= i < |alias| ==> alias[i] == '-' || IsAsciiAlphanumeric(alias[i])
  }

  /** Such an alias is never trimmed: one block is left, and every further
      update adds one blank line. */
  lemma HostAliasLeavesOneEntry(config: string, alias: string, port: nat, keyPath: string, knownHosts: string)
    requires IsHostAlias(alias) && OneLine(keyPath) && OneLine(knownHosts)
    ensures var updated := Replaced(config, alias, Entry(alias, port, keyPath, knownHosts));
            && CountMarkers(Lines(updated), KindIn(alias)) == 1
            && Survivors(updated, alias) == StripAll(Survivors(config, alias)) + [""]
  {
    var marker := HostMarker(alias);
    assert alias[0] == 'v' && alias[1] == 'k' && alias[2] == '-';
    assert marker[0] == 'H' && marker[|marker| - 1] == alias[|alias| - 1];
    assert Trim(marker) == marker;
    UpdateLeavesOneEntry(config, alias, port, keyPath, knownHosts);
  }
}
