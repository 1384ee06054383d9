/** Tab completion of the console's input line against the known command
    names: find the word that ends at the cursor, collect the names that start
    with it ignoring case, then complete a single match, extend the word by the
    matches' common prefix, or report that nothing matches. */
module Completion {
  import opened Util
  import opened Text
  import opened Edit

  // ---------------------------------------------------------------------------
  // The word before the cursor

  predicate IsDelimiter(c: char) {
    c == ' ' || c == '\t' || c == ',' || c == ';'
  }

  /** Start of the longest run ending at `cursor` that contains no delimiter. */
  function WordStart(buf: string, cursor: nat): (start: nat)
    requires cursor <= |buf|
    ensures start <= cursor
    ensures forall k :: start <= k < cursor ==> !IsDelimiter(buf[k])
    ensures start == 0 || IsDelimiter(buf[start - 1])
  {
    if cursor == 0 || IsDelimiter(buf[cursor - 1]) then cursor else WordStart(buf, cursor - 1)
  }

  /** The backwards scan from the cursor to the previous delimiter. */
  method FindWordStart(buf: string, cursor: nat) returns (start: nat)
    requires cursor <= |buf|
    ensures start == WordStart(buf, cursor)
  {
    start := cursor;
    while start > 0
      invariant start <= cursor
      invariant WordStart(buf, start) == WordStart(buf, cursor)
    {
      if IsDelimiter(buf[start - 1]) {
        break;
      }
      start := start - 1;
    }
  }

  // ---------------------------------------------------------------------------
  // Candidates

  /** The commands that start with `word` ignoring case, in command order. */
  function Candidates(commands: seq<string>, word: string): (c: seq<string>)
    ensures forall x :: x in c ==> x in commands && HasPrefixIgnoreCase(x, word)
    ensures forall x :: x in commands && HasPrefixIgnoreCase(x, word) ==> x in c
  {
    if commands == [] then []
    else
      var last := commands[|commands| - 1];
      Candidates(commands[..|commands| - 1], word) + (if HasPrefixIgnoreCase(last, word) then [last] else [])
  }

  /** One more command adds itself when it matches. */
  lemma CandidatesSnoc(s: seq<string>, x: string, word: string)
    ensures Candidates(s + [x], word) == Candidates(s, word) + (if HasPrefixIgnoreCase(x, word) then [x] else [])
  {
    assert (s + [x])[..|s|] == s;
  }

  /** Filtering distributes over concatenation, so candidates keep the
      relative order the commands have. */
  lemma {:induction false} CandidatesConcat(a: seq<string>, b: seq<string>, word: string)
    ensures Candidates(a + b, word) == Candidates(a, word) + Candidates(b, word)
    decreases |b|
  {
    if b == [] {
      assert a + b == a;
    } else {
      var b', x := b[..|b| - 1], b[|b| - 1];
      assert b == b' + [x];
      assert a + b == (a + b') + [x];
      CandidatesConcat(a, b', word);
      CandidatesSnoc(a + b', x, word);
      CandidatesSnoc(b', x, word);
    }
  }

  /** The loop that collects every command matching the word. */
  method CollectCandidates(commands: seq<string>, word: string) returns (candidates: seq<string>)
    ensures candidates == Candidates(commands, word)
  {
    candidates := [];
    var i := 0;
    while i < |commands|
      invariant i <= |commands|
      invariant candidates == Candidates(commands[..i], word)
    {
      assert commands[..i + 1][..i] == commands[..i];
      if HasPrefixIgnoreCase(commands[i], word) {
        candidates := candidates + [commands[i]];
      }
      i := i + 1;
    }
    assert commands[..|commands|] == commands;
  }

  // ---------------------------------------------------------------------------
  // Common prefix of several candidates

  /** The character at `k`, reading past the end as the terminating NUL. */
  function At(s: string, k: nat): char {
    if k < |s| then s[k] else '\0'
  }

  /** All candidates carry the same character at `k`, ignoring case, and the
      first one has not ended there. */
  predicate AllAgreeAt(candidates: seq<string>, k: nat)
    requires |candidates| >= 1
  {
    forall i :: 0 <= i < |candidates| ==> MatchesAt(candidates[i], k, Upper(At(candidates[0], k)))
  }

  /** `s` carries `c`, a character other than NUL, at `k` ignoring case. */
  predicate MatchesAt(s: string, k: nat, c: char) {
    c != '\0' && Upper(At(s, k)) == c
  }

  /** Where the candidates' common prefix ends, searching from `m` on. */
  function MatchEnd(candidates: seq<string>, m: nat): (r: nat)
    requires |candidates| >= 1
    ensures m <= r
    ensures m <= |candidates[0]| ==> r <= |candidates[0]|
    ensures forall k :: m <= k < r ==> AllAgreeAt(candidates, k)
    ensures !AllAgreeAt(candidates, r)
    decreases |candidates[0]| - m
  {
    if AllAgreeAt(candidates, m) then
      UpperZero(At(candidates[0], m));
      MatchEnd(candidates, m + 1)
    else m
  }

  /** The match_len loop: advance while every candidate agrees at the next position. */
  method CommonPrefixEnd(candidates: seq<string>, wordLen: nat) returns (matchLen: nat)
    requires |candidates| >= 2 && wordLen <= |candidates[0]|
    ensures matchLen == MatchEnd(candidates, wordLen)
  {
    matchLen := wordLen;
    while true
      invariant wordLen <= matchLen <= |candidates[0]|
      invariant MatchEnd(candidates, matchLen) == MatchEnd(candidates, wordLen)
      decreases |candidates[0]| - matchLen
    {
      var c := '\0';
      var allMatch := true;
      var i := 0;
      while i < |candidates| && allMatch
        invariant 0 <= i <= |candidates|
        invariant i >= 1 ==> c == Upper(At(candidates[0], matchLen))
        invariant allMatch ==> forall j :: 1 <= j < i ==> MatchesAt(candidates[j], matchLen, c)
        invariant !allMatch ==> 2 <= i && !MatchesAt(candidates[i - 1], matchLen, c)
      {
        if i == 0 {
          c := Upper(At(candidates[0], matchLen));
        } else if c == '\0' || c != Upper(At(candidates[i], matchLen)) {
          allMatch := false;
        }
        i := i + 1;
      }
      if !allMatch {
        assert !AllAgreeAt(candidates, matchLen) by {
          assert !MatchesAt(candidates[i - 1], matchLen, c);
        }
      } else {
        assert MatchesAt(candidates[1], matchLen, c);
      }
      if !allMatch {
        break;
      }
      UpperZero(At(candidates[0], matchLen));
      matchLen := matchLen + 1;
    }
  }

  /** Candidate `i` has a character at `k`, and it is the first candidate's
      character there ignoring case. */
  predicate AgreesWithFirst(candidates: seq<string>, i: nat, k: nat)
    requires i < |candidates|
  {
    k < |candidates[i]| && k < |candidates[0]| && Upper(candidates[i][k]) == Upper(candidates[0][k])
  }

  /** All candidates having `word` as a prefix ignoring case, every one of
      them agrees with the first on its first MatchEnd characters. */
  lemma MatchEndAgrees(candidates: seq<string>, word: string)
    requires |candidates| >= 1
    requires forall i :: 0 <= i < |candidates| ==> HasPrefixIgnoreCase(candidates[i], word)
    ensures forall i: nat, k: nat :: i < |candidates| && k < MatchEnd(candidates, |word|) ==>
      AgreesWithFirst(candidates, i, k)
  {
    assert HasPrefixIgnoreCase(candidates[0], word);
    forall i: nat, k: nat | i < |candidates| && k < MatchEnd(candidates, |word|)
      ensures AgreesWithFirst(candidates, i, k)
    {
      if k < |word| {
        assert HasPrefixIgnoreCase(candidates[i], word);
        assert UpperAll(candidates[i][..|word|])[k] == UpperAll(word)[k];
        assert UpperAll(candidates[0][..|word|])[k] == UpperAll(word)[k];
      } else {
        assert AllAgreeAt(candidates, k);
        UpperZero(At(candidates[i], k));
        UpperZero(At(candidates[0], k));
      }
    }
  }

  // ---------------------------------------------------------------------------
  // Listing the candidates, three to a line

  const ColumnWidth: nat := 32

  /** The padded cells of `names`, concatenated. */
  function Row(names: seq<string>): (r: string)
    ensures |r| >= ColumnWidth * |names|
  {
    if names == [] then "" else Row(names[..|names| - 1]) + PadRight(names[|names| - 1], ColumnWidth)
  }

  /** The names shown on listing line `j`: three per line, the last line may hold fewer. */
  function Chunk(candidates: seq<string>, j: nat): seq<string>
    requires 3 * j <= |candidates|
  {
    candidates[3 * j..Min(3 * j + 3, |candidates|)]
  }

  function Listing(candidates: seq<string>): (lines: seq<string>)
    ensures |lines| == (|candidates| + 2) / 3
  {
    seq((|candidates| + 2) / 3, j requires 0 <= j < (|candidates| + 2) / 3 => Row(Chunk(candidates, j)) + "\n")
  }

  /** One more name extends the row by its padded cell. */
  lemma RowStep(candidates: seq<string>, g: nat, i: nat)
    requires g <= i < |candidates|
    ensures Row(candidates[g..i + 1]) == Row(candidates[g..i]) + PadRight(candidates[i], ColumnWidth)
  {
    assert candidates[g..i + 1][..i - g] == candidates[g..i];
  }

  /** `lines` are the first listing lines of `candidates`. */
  predicate ListedSoFar(candidates: seq<string>, lines: seq<string>) {
    && 3 * |lines| <= |candidates| + 2
    && forall j :: 0 <= j < |lines| ==> 3 * j <= |candidates| && lines[j] == Row(Chunk(candidates, j)) + "\n"
  }

  /** Emitting the row of the next chunk extends the listing by one line. */
  lemma ListedStep(candidates: seq<string>, lines: seq<string>)
    requires ListedSoFar(candidates, lines) && 3 * |lines| < |candidates|
    ensures ListedSoFar(candidates, lines + [Row(Chunk(candidates, |lines|)) + "\n"])
  {
  }

  /** Within chunk `n`, the third name is the one after which (i + 1) % 3 == 0. */
  lemma ThirdBoundary(i: nat, n: nat)
    requires 3 * n <= i <= 3 * n + 2
    ensures (i != 0 && (i + 1) % 3 == 0) <==> i == 3 * n + 2
  {
    var r := i - 3 * n;
    assert i + 1 == 3 * n + (r + 1);
    assert (i + 1) % 3 == (r + 1) % 3;
  }

  /** Once every chunk has its line, the lines are the listing. */
  lemma ListedAll(candidates: seq<string>, lines: seq<string>)
    requires ListedSoFar(candidates, lines) && 3 * |lines| >= |candidates|
    ensures lines == Listing(candidates)
  {
  }

  /** The loop that fills a line with padded names and emits it after every third. */
  method ListingLines(candidates: seq<string>) returns (lines: seq<string>)
    ensures lines == Listing(candidates)
  {
    lines := [];
    var s := "";
    ghost var g := 0;
    var i := 0;
    while i < |candidates|
      invariant i <= |candidates|
      invariant g == 3 * |lines| && g <= i && i - g <= 2
      invariant ListedSoFar(candidates, lines)
      invariant s == Row(candidates[g..i])
    {
      RowStep(candidates, g, i);
      ThirdBoundary(i, |lines|);
      s := s + PadRight(candidates[i], ColumnWidth);
      if i != 0 && (i + 1) % 3 == 0 {
        assert Chunk(candidates, |lines|) == candidates[g..i + 1];
        ListedStep(candidates, lines);
        lines := lines + [s + "\n"];
        s := "";
        g := i + 1;
      }
      i := i + 1;
    }
    if s != "" {
      assert Chunk(candidates, |lines|) == candidates[g..i];
      ListedStep(candidates, lines);
      lines := lines + [s + "\n"];
    }
    ListedAll(candidates, lines);
  }

  // ---------------------------------------------------------------------------
  // The completion step

  datatype Outcome = Outcome(edit: EditState, lines: seq<string>)

  function NoMatchLine(word: string): string {
    "No match for \"" + word + "\"!\n"
  }

  const PossibleMatches: string := "Possible matches:\n"

  function Word(e: EditState): string
    requires e.cursor <= |e.buf|
  {
    e.buf[WordStart(e.buf, e.cursor)..e.cursor]
  }

  /** One press of TAB: the new line and cursor, and the lines it logs. */
  function Complete(e: EditState, commands: seq<string>): (r: Outcome)
    requires WellFormed(e)
    ensures WellFormed(r.edit)
  {
    var start := WordStart(e.buf, e.cursor);
    var word := e.buf[start..e.cursor];
    var candidates := Candidates(commands, word);
    if |candidates| == 0 then
      Outcome(e, [NoMatchLine(word)])
    else if |candidates| == 1 then
      var d := DeleteChars(e, start, |word|);
      var e1 := InsertChars(d, d.cursor, candidates[0]);
      Outcome(InsertChars(e1, e1.cursor, " "), [])
    else
      assert candidates[0] in candidates;
      var m := MatchEnd(candidates, |word|);
      var e1 := if m > 0 then
          var d := DeleteChars(e, start, |word|);
          InsertChars(d, d.cursor, candidates[0][..m])
        else e;
      Outcome(e1, [PossibleMatches] + Listing(candidates))
  }

  /** The completion branch as the callback runs it: the backwards scan, the
      candidate loop, the match_len loop and the listing loop. */
  method CompleteLine(e: EditState, commands: seq<string>) returns (o: Outcome)
    requires WellFormed(e)
    ensures o == Complete(e, commands)
  {
    var start := FindWordStart(e.buf, e.cursor);
    var word := e.buf[start..e.cursor];
    var candidates := CollectCandidates(commands, word);
    var edit := e;
    if |candidates| == 0 {
      o := Outcome(edit, [NoMatchLine(word)]);
    } else if |candidates| == 1 {
      edit := DeleteChars(edit, start, |word|);
      edit := InsertChars(edit, edit.cursor, candidates[0]);
      edit := InsertChars(edit, edit.cursor, " ");
      o := Outcome(edit, []);
    } else {
      assert candidates[0] in candidates;
      var m := CommonPrefixEnd(candidates, |word|);
      if m > 0 {
        edit := DeleteChars(edit, start, |word|);
        edit := InsertChars(edit, edit.cursor, candidates[0][..m]);
      }
      var lines := ListingLines(candidates);
      o := Outcome(edit, [PossibleMatches] + lines);
    }
  }

  /** No command matches: the line is unchanged and one "No match" line is logged. */
  lemma CompleteNoMatch(e: EditState, commands: seq<string>)
    requires WellFormed(e)
    requires forall x :: x in commands ==> !HasPrefixIgnoreCase(x, Word(e))
    ensures Complete(e, commands) == Outcome(e, [NoMatchLine(Word(e))])
  {
    if Candidates(commands, Word(e)) != [] {
      assert Candidates(commands, Word(e))[0] in Candidates(commands, Word(e));
    }
  }

  /** Exactly one command matches: the word becomes that command and a
      trailing space, the cursor ends up after the space, nothing is logged. */
  lemma CompleteSingle(e: EditState, commands: seq<string>, match1: string)
    requires WellFormed(e)
    requires Candidates(commands, Word(e)) == [match1]
    requires |e.buf| - |Word(e)| + |match1| + 1 < InputBufSize
    ensures var start := WordStart(e.buf, e.cursor);
      Complete(e, commands) ==
        Outcome(EditState(e.buf[..start] + match1 + " " + e.buf[e.cursor..], start + |match1| + 1), [])
  {
    var start := WordStart(e.buf, e.cursor);
    ReplaceRange(e, start, match1);
    var e1 := EditState(e.buf[..start] + match1 + e.buf[e.cursor..], start + |match1|);
    ReplaceRange(e1, e1.cursor, " ");
    assert e1.buf[..start + |match1|] == e.buf[..start] + match1;
    assert e1.buf[start + |match1|..] == e.buf[e.cursor..];
  }

  /** Every candidate starts with the word ignoring case. */
  lemma CandidatesMatch(commands: seq<string>, word: string)
    ensures var c := Candidates(commands, word);
      forall i :: 0 <= i < |c| ==> |word| <= |c[i]| && HasPrefixIgnoreCase(c[i], word)
  {
    var c := Candidates(commands, word);
    forall i | 0 <= i < |c| ensures HasPrefixIgnoreCase(c[i], word) {
      assert c[i] in c;
    }
  }

  /** The edit and the lines of CompleteSeveral. */
  lemma CompleteSeveralOutcome(e: EditState, commands: seq<string>)
    requires WellFormed(e)
    requires |Candidates(commands, Word(e))| >= 2
    requires |Word(e)| <= |Candidates(commands, Word(e))[0]|
    requires |e.buf| - |Word(e)| + MatchEnd(Candidates(commands, Word(e)), |Word(e)|) < InputBufSize
    ensures var c := Candidates(commands, Word(e));
      var start := WordStart(e.buf, e.cursor);
      var m := MatchEnd(c, |Word(e)|);
      && m <= |c[0]|
      && Complete(e, commands).edit == EditState(e.buf[..start] + c[0][..m] + e.buf[e.cursor..], start + m)
      && Complete(e, commands).lines == [PossibleMatches] + Listing(c)
  {
    var c := Candidates(commands, Word(e));
    var start := WordStart(e.buf, e.cursor);
    var m := MatchEnd(c, |Word(e)|);
    if m > 0 {
      ReplaceRange(e, start, c[0][..m]);
    } else {
      assert e.buf[..start] + c[0][..m] + e.buf[e.cursor..] == e.buf;
    }
  }

  /** Several commands match: the word is replaced by the first candidate's
      first `m` characters, where `m` is at least the word's length, every
      candidate agrees with the first on those characters ignoring case, and
      the prefix cannot be extended; one header line and one line per three
      candidates are logged. */
  lemma CompleteSeveral(e: EditState, commands: seq<string>)
    requires WellFormed(e)
    requires |Candidates(commands, Word(e))| >= 2
    requires |e.buf| - |Word(e)| + MatchEnd(Candidates(commands, Word(e)), |Word(e)|) < InputBufSize
    ensures var c := Candidates(commands, Word(e));
      var start := WordStart(e.buf, e.cursor);
      var m := MatchEnd(c, |Word(e)|);
      && |Word(e)| <= m <= |c[0]|
      && (forall i: nat, k: nat :: i < |c| && k < m ==> AgreesWithFirst(c, i, k))
      && !AllAgreeAt(c, m)
      && Complete(e, commands).edit == EditState(e.buf[..start] + c[0][..m] + e.buf[e.cursor..], start + m)
      && Complete(e, commands).lines == [PossibleMatches] + Listing(c)
      && |Complete(e, commands).lines| == 1 + (|c| + 2) / 3
  {
    var c := Candidates(commands, Word(e));
    CandidatesMatch(commands, Word(e));
    MatchEndAgrees(c, Word(e));
    CompleteSeveralOutcome(e, commands);
  }
}
