/**
 * The in-place line splitter behind `print_buf_lines` and
 * `print_buf_lines_extended`: a character buffer is walked up to its first
 * NUL or its stated size, every '\n'-terminated line becomes one menu
 * entry, and an unterminated last line is dropped.
 */
module MenuLines {
  import opened MenuList

  // ---------------------------------------------------------------------
  // Specification
  // ---------------------------------------------------------------------

  /** Where a scan of `t` that starts at `k` stops: the first NUL at or after `k`, or `n`. */
  function ScanEnd(t: seq<char>, k: nat, n: int): (e: nat)
    requires n <= |t|
    ensures k >= n ==> e == k
    ensures k < n ==> k <= e <= n
    ensures forall j :: k <= j < e ==> t[j] != '\0'
    ensures e < n ==> t[e] == '\0'
    decreases n - k
  {
    if k >= n || t[k] == '\0' then k else ScanEnd(t, k + 1, n)
  }

  /**
   * The complete lines of `t`, each without its '\n', in order, and the
   * position where the unterminated rest begins.
   */
  function LinesOf(t: seq<char>): (r: (seq<string>, nat))
    ensures r.1 <= |t|
    ensures forall j :: r.1 <= j < |t| ==> t[j] != '\n'
    ensures forall l :: l in r.0 ==> '\n' !in l
  {
    if t == [] then ([], 0)
    else
      var (lines, start) := LinesOf(t[..|t| - 1]);
      if t[|t| - 1] == '\n' then (lines + [t[start..|t| - 1]], |t|) else (lines, start)
  }

  /** The lines written back out, each followed by its '\n'. */
  function Terminated(lines: seq<string>): seq<char>
  {
    if lines == [] then [] else Terminated(lines[..|lines| - 1]) + lines[|lines| - 1] + ['\n']
  }

  /** The number of '\n' characters in `t`. */
  function Newlines(t: seq<char>): nat
  {
    if t == [] then 0 else Newlines(t[..|t| - 1]) + (if t[|t| - 1] == '\n' then 1 else 0)
  }

  /** The complete lines and the dropped rest put back together give the text again. */
  lemma {:induction false} LinesRoundTrip(t: seq<char>)
    ensures Terminated(LinesOf(t).0) + t[LinesOf(t).1..] == t
  {
    if t != [] {
      var init := t[..|t| - 1];
      LinesRoundTrip(init);
      var (lines, start) := LinesOf(init);
      if t[|t| - 1] == '\n' {
        assert init[start..] == t[start..|t| - 1];
        calc {
          Terminated(lines + [t[start..|t| - 1]]) + t[|t|..];
          { assert (lines + [t[start..|t| - 1]])[..|lines|] == lines; }
          Terminated(lines) + t[start..|t| - 1] + ['\n'];
          init + ['\n'];
          t;
        }
      } else {
        assert init[start..] + [t[|t| - 1]] == t[start..];
      }
    }
  }

  /** One line per '\n'. */
  lemma {:induction false} LinesCount(t: seq<char>)
    ensures |LinesOf(t).0| == Newlines(t)
  {
    if t != [] {
      LinesCount(t[..|t| - 1]);
    }
  }

  /** Text without a '\n' adds no line and does not move the start of the rest. */
  lemma {:induction false} LinesOfUnterminated(t: seq<char>, rest: seq<char>)
    requires '\n' !in rest
    ensures LinesOf(t + rest) == LinesOf(t)
  {
    if rest != [] {
      var init := rest[..|rest| - 1];
      assert (t + rest)[..|t + rest| - 1] == t + init;
      assert (t + rest)[|t + rest| - 1] == rest[|rest| - 1];
      LinesOfUnterminated(t, init);
    } else {
      assert t + rest == t;
    }
  }

  /**
   * Splitting undoes writing out: lines without a '\n', followed by a rest
   * without a '\n', split back into exactly those lines, the rest starting
   * right after the last '\n'.
   */
  lemma {:induction false} LinesOfTerminated(lines: seq<string>, rest: seq<char>)
    requires forall l :: l in lines ==> '\n' !in l
    requires '\n' !in rest
    ensures LinesOf(Terminated(lines) + rest) == (lines, |Terminated(lines)|)
  {
    LinesOfUnterminated(Terminated(lines), rest);
    if lines != [] {
      var init := lines[..|lines| - 1];
      var last := lines[|lines| - 1];
      assert last in lines;
      LinesOfTerminated(init, last);
      var u := Terminated(init) + last + ['\n'];
      assert u[..|u| - 1] == Terminated(init) + last;
      assert u[|Terminated(init)|..|u| - 1] == last;
      assert init + [last] == lines;
    } else {
      assert Terminated(lines) + [] == Terminated(lines);
    }
  }

  /** The buffer after a scan that reached `n`: every '\n' before `n` is left overwritten by NUL. */
  function Consumed(t: seq<char>, n: nat): (u: seq<char>)
    ensures |u| == |t|
    ensures forall k :: 0 <= k < |t| ==> u[k] == if k < n && t[k] == '\n' then '\0' else t[k]
  {
    seq(|t|, k requires 0 <= k < |t| => if k < n && t[k] == '\n' then '\0' else t[k])
  }

  /** How a line becomes an entry. */
  datatype LineFormat =
    | Plain(entryLabel: string, fileType: nat)
      // `print_buf_lines`: the line itself, with the caller's label
    | Extended(fileType: nat, fields: string -> CoreFields)
      // `print_buf_lines_extended`: the third space-separated field, with an empty label

  /**
   * The first three space-separated fields of a core-list line: date, CRC
   * and file name. The source reads all three without checking that the
   * line has them, so the splitter is taken to always supply them.
   */
  datatype CoreFields = CoreFields(date: string, crc: string, pathname: string)

  function LineEntry(fmt: LineFormat, line: string): MenuEntry
  {
    match fmt
    case Plain(entryLabel, fileType) => TextEntry(line, entryLabel, fileType)
    case Extended(fileType, fields) => TextEntry(fields(line).pathname, "", fileType)
  }

  function LineEntries(fmt: LineFormat, lines: seq<string>): (r: seq<MenuEntry>)
    ensures |r| == |lines|
  {
    if lines == [] then [] else LineEntries(fmt, lines[..|lines| - 1]) + [LineEntry(fmt, lines[|lines| - 1])]
  }

  /** Entry `i` is the entry of line `i`: one entry per line, in order. */
  lemma {:induction false} LineEntriesAt(fmt: LineFormat, lines: seq<string>)
    ensures forall i :: 0 <= i < |lines| ==> LineEntries(fmt, lines)[i] == LineEntry(fmt, lines[i])
  {
    if lines != [] {
      LineEntriesAt(fmt, lines[..|lines| - 1]);
    }
  }

  /** Appending the entry of one more line keeps the entries equal to those of the lines. */
  lemma EntriesStep(base: seq<MenuEntry>, entries: seq<MenuEntry>, fmt: LineFormat, lines: seq<string>, line: string)
    requires entries == base + LineEntries(fmt, lines)
    ensures entries + [LineEntry(fmt, line)] == base + LineEntries(fmt, lines + [line])
  {
    assert (lines + [line])[..|lines|] == lines;
  }

  /** The lines a scan of `buf` with size `bufSize` turns into entries. */
  function ScannedLines(t: seq<char>, bufSize: int): seq<string>
    requires bufSize <= |t|
  {
    LinesOf(t[..ScanEnd(t, 0, bufSize)]).0
  }

  /** What the builders append: one placeholder for a missing or empty buffer, otherwise one entry per line. */
  function PrintEntries(fmt: LineFormat, t: seq<char>, bufSize: int): seq<MenuEntry>
    requires bufSize <= |t|
  {
    if bufSize == 0 then [NoEntriesToDisplay] else LineEntries(fmt, ScannedLines(t, bufSize))
  }

  /**
   * Each entry comes from one line found before the first NUL and within
   * `bufSize`, in buffer order, newline stripped; an unterminated rest is
   * dropped and the text scanned is exactly the lines plus that rest.
   */
  lemma ScanFacts(fmt: LineFormat, t: seq<char>, bufSize: int)
    requires bufSize <= |t| && bufSize != 0
    ensures var e := ScanEnd(t, 0, bufSize);
      var lines := ScannedLines(t, bufSize);
      e <= (if bufSize < 0 then 0 else bufSize) && '\0' !in t[..e] &&
      |PrintEntries(fmt, t, bufSize)| == |lines| == Newlines(t[..e]) &&
      (forall i :: 0 <= i < |lines| ==> PrintEntries(fmt, t, bufSize)[i] == LineEntry(fmt, lines[i]) && '\n' !in lines[i]) &&
      Terminated(lines) + t[LinesOf(t[..e]).1..e] == t[..e] &&
      '\n' !in t[LinesOf(t[..e]).1..e]
  {
    var e := ScanEnd(t, 0, bufSize);
    LinesRoundTrip(t[..e]);
    LinesCount(t[..e]);
    LineEntriesAt(fmt, ScannedLines(t, bufSize));
    var lines := ScannedLines(t, bufSize);
    assert forall i :: 0 <= i < |lines| ==> lines[i] in lines;
  }

  /** Buffer text with no '\n' before its first NUL yields no entries. */
  lemma NoNewlineNoEntries(fmt: LineFormat, t: seq<char>, bufSize: int)
    requires bufSize <= |t| && bufSize != 0
    requires '\n' !in t[..ScanEnd(t, 0, bufSize)]
    ensures PrintEntries(fmt, t, bufSize) == []
  {
    var e := ScanEnd(t, 0, bufSize);
    LinesOfUnterminated([], t[..e]);
    assert [] + t[..e] == t[..e];
  }

  // ---------------------------------------------------------------------
  // The builders
  // ---------------------------------------------------------------------

  /** `strlen(buf + from)`. */
  method Strlen(buf: array<char>, from: nat) returns (n: nat)
    requires from <= buf.Length
    requires exists k :: from <= k < buf.Length && buf[k] == '\0'
    ensures from + n < buf.Length && buf[from + n] == '\0'
    ensures forall k :: from <= k < from + n ==> buf[k] != '\0'
  {
    n := 0;
    while buf[from + n] != '\0'
      invariant from + n < buf.Length
      invariant forall k :: from <= k < from + n ==> buf[k] != '\0'
      invariant exists k :: from + n <= k < buf.Length && buf[k] == '\0'
      decreases buf.Length - (from + n)
    {
      n := n + 1;
    }
  }

  /**
   * The shared walk: each '\n' found before the first NUL and within
   * `bufSize` ends a line that is appended as an entry.
   */
  method ScanLines(list: Menu, buf: array<char>, bufSize: int, fmt: LineFormat)
    requires bufSize < buf.Length
    modifies list, buf
    ensures list.entries == old(list.entries) + LineEntries(fmt, ScannedLines(old(buf[..]), bufSize))
    ensures buf[..] == Consumed(old(buf[..]), ScanEnd(old(buf[..]), 0, bufSize))
  {
    ghost var t := buf[..];
    ghost var e := ScanEnd(t, 0, bufSize);
    var lineStart := 0;
    var i := 0;
    while i < bufSize
      invariant 0 <= i <= e && lineStart <= i
      invariant ScanEnd(t, i, bufSize) == e
      invariant buf[..] == Consumed(t, i)
      invariant LinesOf(t[..i]).1 == lineStart
      invariant list.entries == old(list.entries) + LineEntries(fmt, LinesOf(t[..i]).0)
    {
      if buf[i] == '\0' {
        break;
      }
      if buf[i] == '\n' {
        ConsumeLine(list, buf, lineStart, i, fmt, t, old(list.entries));
        lineStart := i + 1;
      } else {
        LineStep(t, i);
        ConsumedStep(t, i);
      }
      i := i + 1;
    }
  }

  /**
   * Handles the '\n' at `i`: the line before it becomes an entry and the
   * '\n' stays overwritten with NUL.
   */
  method ConsumeLine(list: Menu, buf: array<char>, lineStart: nat, i: nat, fmt: LineFormat,
                     ghost t: seq<char>, ghost base: seq<MenuEntry>)
    requires i + 1 < buf.Length == |t| && t[i] == '\n'
    requires buf[..] == Consumed(t, i)
    requires lineStart == LinesOf(t[..i]).1
    requires forall k :: lineStart <= k < i ==> t[k] != '\0'
    requires list.entries == base + LineEntries(fmt, LinesOf(t[..i]).0)
    modifies list, buf
    ensures buf[..] == Consumed(t, i + 1)
    ensures LinesOf(t[..i + 1]).1 == i + 1
    ensures list.entries == base + LineEntries(fmt, LinesOf(t[..i + 1]).0)
  {
    LineStep(t, i);
    ConsumedStep(t, i);
    EntriesStep(base, list.entries, fmt, LinesOf(t[..i]).0, t[lineStart..i]);
    EmitLine(list, buf, lineStart, i, fmt);
  }

  /**
   * One step of the walk: the lines of the text read so far grow by the line
   * ending at `i` exactly when `t[i]` is '\n'.
   */
  lemma LineStep(t: seq<char>, i: nat)
    requires i < |t|
    ensures t[i] == '\n' ==>
      LinesOf(t[..i + 1]) == (LinesOf(t[..i]).0 + [t[LinesOf(t[..i]).1..i]], i + 1)
    ensures t[i] != '\n' ==> LinesOf(t[..i + 1]) == LinesOf(t[..i])
  {
    assert t[..i + 1][..i] == t[..i];
    assert t[..i + 1][LinesOf(t[..i]).1..i] == t[LinesOf(t[..i]).1..i];
  }

  /**
   * One step of the walk over the buffer: a '\n' at `i` is overwritten with
   * NUL, anything else is kept; the line before a '\n' is untouched.
   */
  lemma ConsumedStep(t: seq<char>, i: nat)
    requires i < |t|
    ensures t[i] == '\n' ==> Consumed(t, i)[i := '\0'] == Consumed(t, i + 1)
    ensures t[i] != '\n' ==> Consumed(t, i) == Consumed(t, i + 1)
    ensures Consumed(t, i)[LinesOf(t[..i]).1..i] == t[LinesOf(t[..i]).1..i]
  {
    var start := LinesOf(t[..i]).1;
    var u := Consumed(t, i);
    forall j | start <= j < i
      ensures u[j] == t[j]
    {
      assert t[..i][j] == t[j];
    }
    assert u[start..i] == t[start..i];
  }

  /**
   * Appends the line `buf[lineStart..i]` ended by the '\n' at `i`: the byte
   * after it is set to NUL while the line is measured and then restored, and
   * the '\n' is left overwritten with NUL.
   */
  method EmitLine(list: Menu, buf: array<char>, lineStart: nat, i: nat, fmt: LineFormat)
    requires lineStart <= i && i + 1 < buf.Length && buf[i] == '\n'
    requires forall k :: lineStart <= k < i ==> buf[k] != '\0'
    modifies list, buf
    ensures buf[..] == old(buf[..])[i := '\0']
    ensures list.entries == old(list.entries) + [LineEntry(fmt, old(buf[lineStart..i]))]
  {
    ghost var line := buf[lineStart..i];
    var c := buf[i + 1];
    buf[i + 1] := '\0';
    var len := Strlen(buf, lineStart);
    assert buf[i] != '\0';
    var ln := len - 1;
    if buf[lineStart + ln] == '\n' {
      buf[lineStart + ln] := '\0';
    }
    list.Add(LineEntry(fmt, buf[lineStart..lineStart + ln]));
    buf[i + 1] := c;
  }

  /**
   * `print_buf_lines`: a missing buffer or a zero size appends the
   * "no entries" placeholder and touches nothing else; otherwise one entry
   * per line, labelled `entryLabel`.
   */
  method PrintBufLines(list: Menu, buf: array?<char>, entryLabel: string, bufSize: int, fileType: nat)
    requires buf != null ==> bufSize < buf.Length
    modifies list, buf
    ensures buf == null ==> list.entries == old(list.entries) + [NoEntriesToDisplay]
    ensures buf != null ==>
      list.entries == old(list.entries) + PrintEntries(Plain(entryLabel, fileType), old(buf[..]), bufSize) &&
      buf[..] == (if bufSize == 0 then old(buf[..]) else Consumed(old(buf[..]), ScanEnd(old(buf[..]), 0, bufSize)))
  {
    if buf == null || bufSize == 0 {
      list.Add(NoEntriesToDisplay);
      return;
    }
    ScanLines(list, buf, bufSize, Plain(entryLabel, fileType));
  }

  /**
   * `print_buf_lines_extended`: as `PrintBufLines`, but each line is split at
   * spaces by `fields` and the entry is its third field.
   */
  method PrintBufLinesExtended(list: Menu, buf: array?<char>, bufSize: int, fileType: nat, fields: string -> CoreFields)
    requires buf != null ==> bufSize < buf.Length
    modifies list, buf
    ensures buf == null ==> list.entries == old(list.entries) + [NoEntriesToDisplay]
    ensures buf != null ==>
      list.entries == old(list.entries) + PrintEntries(Extended(fileType, fields), old(buf[..]), bufSize) &&
      buf[..] == (if bufSize == 0 then old(buf[..]) else Consumed(old(buf[..]), ScanEnd(old(buf[..]), 0, bufSize)))
  {
    if buf == null || bufSize == 0 {
      list.Add(NoEntriesToDisplay);
      return;
    }
    ScanLines(list, buf, bufSize, Extended(fileType, fields));
  }
}
