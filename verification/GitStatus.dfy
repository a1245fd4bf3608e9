/** Parsing the output of `git status --porcelain -z`: NUL-separated entries
    `XY PATH`, followed by the original path of a rename or copy
    ("Porcelain Format Version 1" of git-status(1)). */
module GitStatus {
  import opened Text

  type Byte = b: int | 0 <= b < 256
  type Bytes = seq<Byte>

  const NUL: Byte := 0
  const SPACE: Byte := 32
  const QUESTION: Byte := 63
  const COPIED: Byte := 67
  const RENAMED: Byte := 82

  datatype Entry = Entry(staged: Byte, unstaged: Byte, path: Bytes, origPath: Option<Bytes>, isUntracked: bool)

  datatype Status = Status(uncommittedTracked: nat, untracked: nat, entries: seq<Entry>)

  // ---------------------------------------------------------------- splitting

  /** The parts between NULs; there is always at least one. */
  function Split(out: Bytes): (parts: seq<Bytes>)
    ensures parts != []
  {
    if out == [] then [[]]
    else
      var rest := Split(out[1..]);
      if out[0] == NUL then [[]] + rest else [[out[0]] + rest[0]] + rest[1..]
  }

  ghost predicate NulFree(s: Bytes) {
    forall i :: 0 <= i < |s| ==> s[i] != NUL
  }

  lemma {:induction false} SplitAtNul(a: Bytes, b: Bytes)
    requires NulFree(a)
    ensures Split(a + [NUL] + b) == [a] + Split(b)
  {
    var out := a + [NUL] + b;
    if a == [] {
      assert out[1..] == b;
    } else {
      assert out[1..] == a[1..] + [NUL] + b;
      SplitAtNul(a[1..], b);
      assert out[0] == a[0];
      assert [a[0]] + a[1..] == a;
    }
  }

  // ------------------------------------------------------------------ parsing

  predicate HasOriginal(staged: Byte, unstaged: Byte) {
    staged == RENAMED || unstaged == RENAMED || staged == COPIED || unstaged == COPIED
  }

  predicate IsUntracked(staged: Byte, unstaged: Byte) {
    staged == QUESTION && unstaged == QUESTION
  }

  predicate IsBlank(e: Entry) {
    e.staged == SPACE && e.unstaged == SPACE
  }

  function AddEntry(e: Entry, s: Status): Status {
    Status(
      s.uncommittedTracked + (if !e.isUntracked && !IsBlank(e) then 1 else 0),
      s.untracked + (if e.isUntracked then 1 else 0),
      [e] + s.entries)
  }

  function ParseParts(parts: seq<Bytes>): Status
    decreases |parts|
  {
    if parts == [] then Status(0, 0, [])
    else if |parts[0]| < 4 then ParseParts(parts[1..])
    else
      var staged, unstaged, path := parts[0][0], parts[0][1], parts[0][3..];
      var untracked := IsUntracked(staged, unstaged);
      if HasOriginal(staged, unstaged) && |parts| > 1 then
        var origPath := if parts[1] == [] then None else Some(parts[1]);
        AddEntry(Entry(staged, unstaged, path, origPath, untracked), ParseParts(parts[2..]))
      else
        AddEntry(Entry(staged, unstaged, path, None, untracked), ParseParts(parts[1..]))
  }

  function Append(a: Status, b: Status): Status {
    Status(a.uncommittedTracked + b.uncommittedTracked, a.untracked + b.untracked, a.entries + b.entries)
  }

  lemma AppendNothing(s: Status)
    ensures Append(Status(0, 0, []), s) == s && Append(s, Status(0, 0, [])) == s
  {
  }

  lemma AppendEntry(u: nat, t: nat, entries: seq<Entry>, e: Entry, rest: Status)
    ensures var one := AddEntry(e, Status(0, 0, []));
            Append(Status(u + one.uncommittedTracked, t + one.untracked, entries + [e]), rest)
            == Append(Status(u, t, entries), AddEntry(e, rest))
  {
    assert entries + [e] + rest.entries == entries + ([e] + rest.entries);
  }

  /** The parsing loop's next round, in terms of the parts from `i` on. */
  lemma ParseHere(parts: seq<Bytes>, i: nat)
    requires i < |parts|
    ensures var p, all := parts[i], ParseParts(parts[i..]);
            if |p| < 4 then all == ParseParts(parts[i + 1..])
            else if HasOriginal(p[0], p[1]) && i + 1 < |parts| then
              all == AddEntry(Entry(p[0], p[1], p[3..], if parts[i + 1] == [] then None else Some(parts[i + 1]),
                                    IsUntracked(p[0], p[1])), ParseParts(parts[i + 2..]))
            else all == AddEntry(Entry(p[0], p[1], p[3..], None, IsUntracked(p[0], p[1])), ParseParts(parts[i + 1..]))
  {
    var here := parts[i..];
    assert here[0] == parts[i] && here[1..] == parts[i + 1..];
    if i + 1 < |parts| {
      assert here[1] == parts[i + 1] && here[2..] == parts[i + 2..];
    }
  }

  /** One round of the loop: the entry that starts at part `i`, if it is one,
      and the part after it. */
  method NextEntry(parts: seq<Bytes>, i: nat) returns (entry: Option<Entry>, next: nat)
    requires i < |parts|
    ensures i < next <= |parts|
    ensures entry.None? ==> ParseParts(parts[i..]) == ParseParts(parts[next..])
    ensures entry.Some? ==> ParseParts(parts[i..]) == AddEntry(entry.value, ParseParts(parts[next..]))
  {
    var part := parts[i];
    ParseHere(parts, i);
    next := i + 1;
    if |part| < 4 {
      return None, next;
    }
    var staged, unstaged, path := part[0], part[1], part[3..];
    var origPath: Option<Bytes> := None;
    if HasOriginal(staged, unstaged) && next < |parts| {
      if parts[next] != [] {
        origPath := Some(parts[next]);
      }
      next := next + 1;
    }
    entry := Some(Entry(staged, unstaged, path, origPath, IsUntracked(staged, unstaged)));
  }

  /** The parsing loop over the parts. */
  method ParseStatus(out: Bytes) returns (status: Status)
    ensures status == ParseParts(Split(out))
  {
    var parts := Split(out);
    var entries: seq<Entry> := [];
    var uncommittedTracked, untracked := 0, 0;
    var i := 0;
    AppendNothing(ParseParts(parts));
    assert parts[0..] == parts;
    while i < |parts|
      invariant 0 <= i <= |parts|
      invariant Append(Status(uncommittedTracked, untracked, entries), ParseParts(parts[i..])) == ParseParts(parts)
    {
      var entry, next := NextEntry(parts, i);
      i := next;
      if entry.Some? {
        var e := entry.value;
        AppendEntry(uncommittedTracked, untracked, entries, e, ParseParts(parts[i..]));
        if e.isUntracked {
          untracked := untracked + 1;
        } else if e.staged != SPACE || e.unstaged != SPACE {
          uncommittedTracked := uncommittedTracked + 1;
        }
        entries := entries + [e];
      }
    }
    status := Status(uncommittedTracked, untracked, entries);
    assert parts[i..] == [];
    AppendNothing(status);
  }

  // ----------------------------------------------------------------- printing

  function PrintEntry(e: Entry): Bytes {
    [e.staged, e.unstaged, SPACE] + e.path + [NUL]
    + if e.origPath.Some? then e.origPath.value + [NUL] else []
  }

  function PrintStatus(entries: seq<Entry>): Bytes {
    if entries == [] then [] else PrintEntry(entries[0]) + PrintStatus(entries[1..])
  }

  /** The letter `c` stands in one of an entry's two columns, or in both. */
  predicate InColumns(e: Entry, c: char) {
    e.staged == c as int || e.unstaged == c as int
  }

  predicate InBothColumns(e: Entry, c: char) {
    e.staged == c as int && e.unstaged == c as int
  }

  /** What git prints: a path that is neither empty nor contains NUL, an
      original path exactly for renames and copies, `??` for untracked files. */
  ghost predicate Printed(e: Entry) {
    && e.staged != NUL && e.unstaged != NUL
    && e.path != [] && NulFree(e.path)
    && (e.origPath.Some? <==> InColumns(e, 'R') || InColumns(e, 'C'))
    && (e.origPath.Some? ==> e.origPath.value != [] && NulFree(e.origPath.value))
    && e.isUntracked == InBothColumns(e, '?')
  }

  lemma SplitEntry(e: Entry, rest: Bytes)
    requires Printed(e)
    ensures Split(PrintEntry(e) + rest)
         == [[e.staged, e.unstaged, SPACE] + e.path]
            + (if e.origPath.Some? then [e.origPath.value] else []) + Split(rest)
  {
    var head := [e.staged, e.unstaged, SPACE] + e.path;
    var tail := if e.origPath.Some? then e.origPath.value + [NUL] + rest else rest;
    assert PrintEntry(e) + rest == head + [NUL] + tail;
    SplitAtNul(head, tail);
    if e.origPath.Some? {
      SplitAtNul(e.origPath.value, rest);
    }
  }

  /** Parsing undoes printing, for any list of entries. */
  lemma {:induction false} ParseUndoesPrint(entries: seq<Entry>)
    requires forall e :: e in entries ==> Printed(e)
    ensures ParseParts(Split(PrintStatus(entries))).entries == entries
  {
    if entries != [] {
      var e, rest := entries[0], entries[1..];
      ParseUndoesPrint(rest);
      SplitEntry(e, PrintStatus(rest));
      var parts := Split(PrintStatus(entries));
      var head := [e.staged, e.unstaged, SPACE] + e.path;
      assert parts[0] == head && head[3..] == e.path;
      if e.origPath.Some? {
        assert parts[1] == e.origPath.value && parts[2..] == Split(PrintStatus(rest));
      } else {
        assert parts[1..] == Split(PrintStatus(rest));
      }
      assert entries == [e] + rest;
    }
  }

  // ----------------------------------------------------------------- counting

  function Count(entries: seq<Entry>, counts: Entry -> bool): nat {
    if entries == [] then 0
    else (if counts(entries[0]) then 1 else 0) + Count(entries[1..], counts)
  }

  function Untracked(): Entry -> bool {
    (e: Entry) => InBothColumns(e, '?')
  }

  function Tracked(): Entry -> bool {
    (e: Entry) => !InBothColumns(e, '?') && !InBothColumns(e, ' ')
  }

  /** Every parsed entry is one part of the output, or two: its columns and
      path, and the original path of a rename or copy. */
  predicate IsParsedFrom(e: Entry, parts: seq<Bytes>) {
    && (exists p :: p in parts && |p| >= 4 && p[0] == e.staged && p[1] == e.unstaged && p[3..] == e.path)
    && (e.origPath.Some? ==>
          (InColumns(e, 'R') || InColumns(e, 'C')) && e.origPath.value != [] && e.origPath.value in parts)
    && (e.isUntracked <==> InBothColumns(e, '?'))
  }

  lemma {:induction false} ParsedEntries(parts: seq<Bytes>)
    ensures forall e :: e in ParseParts(parts).entries ==> IsParsedFrom(e, parts)
    decreases |parts|
  {
    if parts != [] {
      var next := if |parts[0]| >= 4 && HasOriginal(parts[0][0], parts[0][1]) && |parts| > 1 then 2 else 1;
      var rest := ParseParts(parts[next..]).entries;
      ParsedEntries(parts[next..]);
      assert forall p :: p in parts[next..] ==> p in parts;
      forall e | e in rest ensures IsParsedFrom(e, parts) {
        assert IsParsedFrom(e, parts[next..]);
      }
      if |parts[0]| >= 4 {
        var e := ParseParts(parts).entries[0];
        assert parts[0] in parts && (next == 2 ==> parts[1] in parts);
        assert ParseParts(parts).entries == [e] + rest && IsParsedFrom(e, parts);
      }
    }
  }

  /** Whatever the output, the counters count the entries: one those with two
      question marks, the other those with neither two question marks nor two
      blanks. */
  lemma {:induction false} EntriesAreCounted(parts: seq<Bytes>)
    ensures var s := ParseParts(parts);
            && s.untracked == Count(s.entries, Untracked())
            && s.uncommittedTracked == Count(s.entries, Tracked())
    decreases |parts|
  {
    if parts != [] {
      var next := if |parts[0]| >= 4 && HasOriginal(parts[0][0], parts[0][1]) && |parts| > 1 then 2 else 1;
      EntriesAreCounted(parts[next..]);
      if |parts[0]| >= 4 {
        assert ParseParts(parts).entries[1..] == ParseParts(parts[next..]).entries;
      }
    }
  }

  lemma {:induction false} EachIsCountedOnce(entries: seq<Entry>)
    requires forall e :: e in entries ==> !InBothColumns(e, ' ')
    ensures Count(entries, Untracked()) + Count(entries, Tracked()) == |entries|
  {
    if entries != [] {
      assert entries[0] in entries;
      EachIsCountedOnce(entries[1..]);
    }
  }

  /** Reading what git prints: the list of entries, the untracked ones and the
      others counted separately. */
  lemma StatusRoundTrip(entries: seq<Entry>)
    requires forall e :: e in entries ==> Printed(e)
    ensures var s := ParseParts(Split(PrintStatus(entries)));
            && s.entries == entries
            && s.untracked == Count(entries, Untracked()) && s.uncommittedTracked == Count(entries, Tracked())
            && ((forall e :: e in entries ==> !InBothColumns(e, ' ')) ==> s.uncommittedTracked + s.untracked == |entries|)
  {
    ParseUndoesPrint(entries);
    EntriesAreCounted(Split(PrintStatus(entries)));
    if forall e :: e in entries ==> !InBothColumns(e, ' ') {
      EachIsCountedOnce(entries);
    }
  }
}
