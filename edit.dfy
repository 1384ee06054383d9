/** The input line as the text-edit callback sees it: the buffer contents and
    the cursor, and the two edits the callback performs on them. The console's
    input buffer holds 256 bytes including the terminating NUL; the toolkit's
    insertion into a fixed-size buffer does nothing when the text would not
    fit, and deletion moves the cursor back over what it removed. */
module Edit {

  const InputBufSize: nat := 256

  datatype EditState = EditState(buf: string, cursor: nat)

  predicate WellFormed(e: EditState) {
    e.cursor <= |e.buf| < InputBufSize
  }

  /** Removes `count` characters at `pos`. */
  function DeleteChars(e: EditState, pos: nat, count: nat): (r: EditState)
    requires pos + count <= |e.buf|
    ensures WellFormed(e) ==> WellFormed(r)
  {
    EditState(e.buf[..pos] + e.buf[pos + count..],
      if e.cursor >= pos + count then e.cursor - count
      else if e.cursor >= pos then pos
      else e.cursor)
  }

  /** Inserts `text` at `pos`, unless the result would not fit the buffer. */
  function InsertChars(e: EditState, pos: nat, text: string): (r: EditState)
    requires pos <= |e.buf|
    ensures WellFormed(e) ==> WellFormed(r)
  {
    if |text| + |e.buf| >= InputBufSize then e
    else EditState(e.buf[..pos] + text + e.buf[pos..],
      if e.cursor >= pos then e.cursor + |text| else e.cursor)
  }

  /** Deletes the whole line, then inserts `text` at its start. */
  function ReplaceAll(e: EditState, text: string): EditState {
    var d := DeleteChars(e, 0, |e.buf|);
    InsertChars(d, 0, text)
  }

  /** Replacing the line leaves exactly `text` with the cursor after it, or an
      empty line when `text` is too long for the buffer. */
  lemma ReplaceAllResult(e: EditState, text: string)
    requires e.cursor <= |e.buf|
    ensures |text| < InputBufSize ==> ReplaceAll(e, text) == EditState(text, |text|)
    ensures |text| >= InputBufSize ==> ReplaceAll(e, text) == EditState("", 0)
  {
    assert e.buf[..0] + e.buf[|e.buf|..] == "";
    assert "" [..0] + text + ""[0..] == text;
  }

  /** Deleting the text between `start` and the cursor and inserting `text`
      there replaces that range, with the cursor after the insertion. */
  lemma ReplaceRange(e: EditState, start: nat, text: string)
    requires start <= e.cursor <= |e.buf|
    requires |e.buf| - (e.cursor - start) + |text| < InputBufSize
    ensures var d := DeleteChars(e, start, e.cursor - start);
      && d.cursor == start
      && InsertChars(d, d.cursor, text) == EditState(e.buf[..start] + text + e.buf[e.cursor..], start + |text|)
  {
    var d := DeleteChars(e, start, e.cursor - start);
    assert d.buf[..start] == e.buf[..start];
    assert d.buf[start..] == e.buf[e.cursor..];
  }
}
