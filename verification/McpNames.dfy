/** Server identifiers: which names are valid, and the identifier suggested for
    a name that is not. */
module McpNames {
  import opened Text

  predicate IsIdentifierChar(c: char) {
    IsAsciiAlphanumeric(c) || c == '_' || c == '-'
  }

  predicate IsValidIdentifier(name: string) {
    name != "" && forall i :: 0 <= i < |name| ==> IsIdentifierChar(name[i])
  }

  /** The state of the scan: what has been suggested so far, and whether its
      last character stands for a run of other characters. */
  function Scan(s: string, done: string, separated: bool): string {
    if s == [] then done
    else if IsIdentifierChar(s[0]) then Scan(s[1..], done + [AsciiLower(s[0])], false)
    else if !separated && done != "" then Scan(s[1..], done + "_", true)
    else Scan(s[1..], done, separated)
  }

  function StripUnderscores(s: string): string {
    if s != [] && s[|s| - 1] == '_' then StripUnderscores(s[..|s| - 1]) else s
  }

  function SuggestedIdentifier(name: string): string {
    var s := StripUnderscores(Scan(Trim(name), "", false));
    if s == "" then "mcp_server" else s
  }

  /** The identifier a native name is listed under. */
  function IdentifierOf(name: string): string {
    if IsValidIdentifier(name) then name else SuggestedIdentifier(name)
  }

  method SuggestIdentifier(name: string) returns (suggestion: string)
    ensures suggestion == SuggestedIdentifier(name)
  {
    suggestion := "";
    var previousWasSeparator := false;
    var s := Trim(name);
    for i := 0 to |s|
      invariant Scan(s[i..], suggestion, previousWasSeparator) == Scan(s, "", false)
    {
      var c := s[i];
      assert s[i..][1..] == s[i + 1..];
      if IsIdentifierChar(c) {
        suggestion := suggestion + [AsciiLower(c)];
        previousWasSeparator := false;
      } else if !previousWasSeparator && suggestion != "" {
        suggestion := suggestion + "_";
        previousWasSeparator := true;
      }
    }
    while suggestion != "" && suggestion[|suggestion| - 1] == '_'
      invariant StripUnderscores(suggestion) == StripUnderscores(Scan(s, "", false))
      decreases |suggestion|
    {
      suggestion := suggestion[..|suggestion| - 1];
    }
    if suggestion == "" {
      suggestion := "mcp_server";
    }
  }

  /** Identifiers a suggestion can be: lower case, not ending in `_`. */
  predicate IsSuggestion(s: string) {
    && IsValidIdentifier(s)
    && (forall i :: 0 <= i < |s| ==> AsciiLower(s[i]) == s[i])
    && s[|s| - 1] != '_'
  }

  predicate LowerIdentifierChars(s: string) {
    forall i :: 0 <= i < |s| ==> IsIdentifierChar(s[i]) && AsciiLower(s[i]) == s[i]
  }

  lemma {:induction false} ScanIsLower(s: string, done: string, separated: bool)
    requires LowerIdentifierChars(done)
    ensures LowerIdentifierChars(Scan(s, done, separated))
  {
    if s != [] {
      if IsIdentifierChar(s[0]) {
        ScanIsLower(s[1..], done + [AsciiLower(s[0])], false);
      } else if !separated && done != "" {
        ScanIsLower(s[1..], done + "_", true);
      } else {
        ScanIsLower(s[1..], done, separated);
      }
    }
  }

  lemma {:induction false} StripKeepsLower(s: string)
    requires LowerIdentifierChars(s)
    ensures LowerIdentifierChars(StripUnderscores(s))
    ensures StripUnderscores(s) == "" || StripUnderscores(s)[|StripUnderscores(s)| - 1] != '_'
  {
    if s != [] && s[|s| - 1] == '_' {
      StripKeepsLower(s[..|s| - 1]);
    }
  }

  /** A suggestion is always a valid identifier. */
  lemma SuggestionIsValid(name: string)
    ensures IsSuggestion(SuggestedIdentifier(name))
  {
    ScanIsLower(Trim(name), "", false);
    StripKeepsLower(Scan(Trim(name), "", false));
  }

  lemma {:induction false} ScanKeeps(s: string, done: string, separated: bool)
    requires LowerIdentifierChars(s)
    ensures Scan(s, done, separated) == done + s
  {
    if s != [] {
      ScanKeeps(s[1..], done + [s[0]], false);
      assert done + [s[0]] + s[1..] == done + s;
    }
  }

  lemma TrimKeeps(s: string)
    requires s != "" && IsIdentifierChar(s[0]) && IsIdentifierChar(s[|s| - 1])
    ensures Trim(s) == s
  {
  }

  /** A suggestion is left alone, and nothing else is. */
  lemma SuggestionIsFixpoint(name: string)
    ensures SuggestedIdentifier(name) == name <==> IsSuggestion(name)
    ensures SuggestedIdentifier(SuggestedIdentifier(name)) == SuggestedIdentifier(name)
  {
    SuggestionIsValid(name);
    forall s | IsSuggestion(s) ensures SuggestedIdentifier(s) == s {
      TrimKeeps(s);
      ScanKeeps(s, "", false);
      assert "" + s == s;
    }
  }

  lemma IdentifierIsValid(name: string)
    ensures IsValidIdentifier(IdentifierOf(name))
  {
    SuggestionIsValid(name);
  }

  // ------------------------------------------------ the words of a name

  /** The characters of identifiers. */
  predicate InIdentifier(c: char) {
    'a' <= c <= 'z' || 'A' <= c <= 'Z' || '0' <= c <= '9' || c == '_' || c == '-'
  }

  /** A piece of a name: a word of identifier characters, or a gap of others. */
  predicate IsWord(s: string) {
    s != "" && forall i :: 0 <= i < |s| ==> InIdentifier(s[i])
  }

  predicate IsGap(s: string) {
    forall i :: 0 <= i < |s| ==> !InIdentifier(s[i])
  }

  /** A word, and the gap behind it. */
  datatype Piece = Piece(word: string, gap: string)

  /** The pieces of a name: a gap may be missing only at its ends. */
  ghost predicate ArePieces(pieces: seq<Piece>) {
    forall i :: 0 <= i < |pieces| ==>
      IsWord(pieces[i].word) && IsGap(pieces[i].gap) && (i < |pieces| - 1 ==> pieces[i].gap != "")
  }

  function Glue(pieces: seq<Piece>): string {
    if pieces == [] then "" else pieces[0].word + pieces[0].gap + Glue(pieces[1..])
  }

  /** `t` is `s` in lower case. */
  ghost predicate IsLowerOf(t: string, s: string) {
    |t| == |s| && forall i :: 0 <= i < |s| ==>
      if 'A' <= s[i] <= 'Z' then t[i] as int == s[i] as int + 32 else t[i] == s[i]
  }

  function Lower(s: string): (t: string)
    ensures IsLowerOf(t, s)
  {
    seq(|s|, i requires 0 <= i < |s| => AsciiLower(s[i]))
  }

  /** The words in lower case, with one underscore between two of them. */
  function JoinLower(pieces: seq<Piece>): string {
    if pieces == [] then ""
    else Lower(pieces[0].word) + (if |pieces| > 1 then "_" else "") + JoinLower(pieces[1..])
  }

  /** `r` is `s` without the underscores at its end. */
  ghost predicate IsStripped(r: string, s: string) {
    && r <= s && (r != "" ==> r[|r| - 1] != '_')
    && forall i :: |r| <= i < |s| ==> s[i] == '_'
  }

  lemma {:induction false} StripStrips(s: string)
    ensures IsStripped(StripUnderscores(s), s)
  {
    if s != [] && s[|s| - 1] == '_' {
      StripStrips(s[..|s| - 1]);
    }
  }

  lemma StripOne(s: string)
    ensures StripUnderscores(s + "_") == StripUnderscores(s)
  {
    assert (s + "_")[..|s|] == s;
  }

  lemma {:induction false} ScanGap(g: string, rest: string, done: string, separated: bool)
    requires IsGap(g)
    ensures Scan(g + rest, done, separated)
         == if g != "" && done != "" && !separated then Scan(rest, done + "_", true) else Scan(rest, done, separated)
  {
    if g == "" {
      assert g + rest == rest;
    } else {
      assert (g + rest)[1..] == g[1..] + rest;
      if !separated && done != "" {
        ScanGap(g[1..], rest, done + "_", true);
      } else {
        ScanGap(g[1..], rest, done, separated);
      }
    }
  }

  lemma {:induction false} ScanWord(w: string, rest: string, done: string, separated: bool)
    requires forall i :: 0 <= i < |w| ==> IsIdentifierChar(w[i])
    ensures Scan(w + rest, done, separated) == Scan(rest, done + Lower(w), if w == "" then separated else false)
  {
    if w == "" {
      assert w + rest == rest && done + Lower(w) == done;
    } else {
      assert (w + rest)[1..] == w[1..] + rest;
      ScanWord(w[1..], rest, done + [AsciiLower(w[0])], false);
      assert Lower(w) == [AsciiLower(w[0])] + Lower(w[1..]);
      assert done + [AsciiLower(w[0])] + Lower(w[1..]) == done + Lower(w);
    }
  }

  lemma PiecesTail(pieces: seq<Piece>)
    requires ArePieces(pieces) && pieces != []
    ensures ArePieces(pieces[1..])
    ensures IsWord(pieces[0].word) && IsGap(pieces[0].gap) && (|pieces| > 1 ==> pieces[0].gap != "")
    ensures Glue(pieces) == pieces[0].word + (pieces[0].gap + Glue(pieces[1..]))
  {
  }

  lemma ScanPiece(p: Piece, rest: string, done: string, separated: bool)
    requires IsWord(p.word) && IsGap(p.gap)
    ensures var now := done + Lower(p.word);
            Scan(p.word + (p.gap + rest), done, separated)
            == if p.gap == "" then Scan(rest, now, false) else Scan(rest, now + "_", true)
  {
    ScanWord(p.word, p.gap + rest, done, separated);
    ScanGap(p.gap, rest, done + Lower(p.word), false);
  }

  /** Scanning pieces joins them; a gap at the end leaves an underscore. */
  lemma {:induction false} ScanPieces(pieces: seq<Piece>, done: string, separated: bool)
    requires ArePieces(pieces) && pieces != []
    ensures Scan(Glue(pieces), done, separated)
         == done + JoinLower(pieces) + if pieces[|pieces| - 1].gap == "" then "" else "_"
    decreases |pieces|
  {
    var first, rest := pieces[0], pieces[1..];
    PiecesTail(pieces);
    ScanPiece(first, Glue(rest), done, separated);
    if rest == [] {
      assert done + JoinLower(pieces) == done + Lower(first.word);
    } else {
      ScanPieces(rest, done + Lower(first.word) + "_", true);
      JoinNext(pieces, done);
    }
  }

  lemma JoinNext(pieces: seq<Piece>, done: string)
    requires |pieces| > 1
    ensures done + Lower(pieces[0].word) + "_" + JoinLower(pieces[1..]) == done + JoinLower(pieces)
    ensures pieces[1..][|pieces| - 2] == pieces[|pieces| - 1]
  {
    Regroup(done, Lower(pieces[0].word), "_", JoinLower(pieces[1..]));
  }

  lemma Regroup(a: string, b: string, c: string, d: string)
    ensures a + b + c + d == a + (b + c + d) && b + (c + d) == b + c + d
  {
  }

  lemma {:induction false} LeadingSpaceIsSkipped(s: string)
    ensures Scan(TrimStart(s), "", false) == Scan(s, "", false)
  {
    if s != [] && IsWhitespace(s[0]) {
      LeadingSpaceIsSkipped(s[1..]);
    }
  }

  lemma {:induction false} ScanLast(s: string, c: char, done: string, separated: bool)
    requires !IsIdentifierChar(c)
    ensures Scan(s + [c], done, separated) == Scan(s, done, separated)
         || Scan(s + [c], done, separated) == Scan(s, done, separated) + "_"
  {
    if s == "" {
      assert (s + [c])[1..] == "";
    } else {
      assert (s + [c])[1..] == s[1..] + [c];
      if IsIdentifierChar(s[0]) {
        ScanLast(s[1..], c, done + [AsciiLower(s[0])], false);
      } else if !separated && done != "" {
        ScanLast(s[1..], c, done + "_", true);
      } else {
        ScanLast(s[1..], c, done, separated);
      }
    }
  }

  lemma {:induction false} TrailingSpaceIsStripped(s: string)
    ensures StripUnderscores(Scan(TrimEnd(s), "", false)) == StripUnderscores(Scan(s, "", false))
  {
    if s != [] && IsWhitespace(s[|s| - 1]) {
      var init, c := s[..|s| - 1], s[|s| - 1];
      assert s == init + [c];
      TrailingSpaceIsStripped(init);
      ScanLast(init, c, "", false);
      StripOne(Scan(init, "", false));
    }
  }

  /** White space at the ends of a name does not matter. */
  lemma TrimmingIsIdle(name: string)
    ensures StripUnderscores(Scan(Trim(name), "", false)) == StripUnderscores(Scan(name, "", false))
  {
    TrailingSpaceIsStripped(TrimStart(name));
    LeadingSpaceIsSkipped(name);
  }

  /** The suggestion for a name: its words in lower case, joined by one
      underscore, without the underscores at the end, or `mcp_server` where
      nothing is left. */
  lemma SuggestionJoinsWords(gap: string, pieces: seq<Piece>, r: string)
    requires IsGap(gap) && ArePieces(pieces) && IsStripped(r, JoinLower(pieces))
    ensures SuggestedIdentifier(gap + Glue(pieces)) == if r == "" then "mcp_server" else r
  {
    TrimmingIsIdle(gap + Glue(pieces));
    ScanIsJoin(gap, pieces);
    StripStrips(JoinLower(pieces));
    StrippedIsUnique(r, StripUnderscores(JoinLower(pieces)), JoinLower(pieces));
  }

  lemma ScanIsJoin(gap: string, pieces: seq<Piece>)
    requires IsGap(gap) && ArePieces(pieces)
    ensures StripUnderscores(Scan(gap + Glue(pieces), "", false)) == StripUnderscores(JoinLower(pieces))
  {
    ScanGap(gap, Glue(pieces), "", false);
    if pieces != [] {
      var joined := JoinLower(pieces);
      ScanPieces(pieces, "", false);
      assert "" + joined + "_" == joined + "_" && "" + joined + "" == joined;
      StripOne(joined);
    }
  }

  lemma StrippedIsUnique(a: string, b: string, s: string)
    requires IsStripped(a, s) && IsStripped(b, s)
    ensures a == b
  {
    assert a == s[..|a|] && b == s[..|b|];
    assert |a| == |b|;
  }

  /** Every name has such pieces. */
  lemma {:induction false} NameHasPieces(name: string) returns (gap: string, pieces: seq<Piece>)
    ensures IsGap(gap) && ArePieces(pieces) && name == gap + Glue(pieces)
  {
    if name == "" {
      gap, pieces := "", [];
    } else {
      var g, rest := NameHasPieces(name[1..]);
      assert name == [name[0]] + name[1..];
      if !IsIdentifierChar(name[0]) {
        gap, pieces := [name[0]] + g, rest;
        Regroup("", [name[0]], g, Glue(rest));
      } else if g == "" && rest != [] {
        gap, pieces := "", [Piece([name[0]] + rest[0].word, rest[0].gap)] + rest[1..];
        LongerWord(name[0], rest);
        assert "" + Glue(rest) == Glue(rest) && "" + Glue(pieces) == Glue(pieces);
      } else {
        gap, pieces := "", [Piece([name[0]], g)] + rest;
        assert pieces[1..] == rest;
        Regroup("", [name[0]], g, Glue(rest));
      }
    }
  }

  lemma LongerWord(c: char, rest: seq<Piece>)
    requires IsIdentifierChar(c) && rest != [] && ArePieces(rest)
    ensures var pieces := [Piece([c] + rest[0].word, rest[0].gap)] + rest[1..];
            ArePieces(pieces) && Glue(pieces) == [c] + Glue(rest)
  {
    var pieces := [Piece([c] + rest[0].word, rest[0].gap)] + rest[1..];
    assert pieces[1..] == rest[1..];
    assert [c] + rest[0].word + rest[0].gap + Glue(rest[1..]) == [c] + (rest[0].word + rest[0].gap + Glue(rest[1..]));
  }
}
