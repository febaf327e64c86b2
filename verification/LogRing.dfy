/** The in-memory log: an escape-stripping copy into a saturating ring, and a reader that drops the
    lock between lines. */
module LogText {
  const NUL: char := '\0'
  const ESC: char := '\U{1b}'
  const LINE_LEN: nat := 128

  // The C string held in a buffer: everything before the first NUL, or before its end.
  function CStr(buf: string): string {
    if buf == "" || buf[0] == NUL then "" else [buf[0]] + CStr(buf[1..])
  }

  // What follows the first 'm'; nothing if there is none.
  function AfterEscape(s: string): (r: string)
    ensures s != "" ==> |r| < |s|
  {
    if s == "" then "" else if s[0] == 'm' then s[1..] else AfterEscape(s[1..])
  }

  // A line without colour escapes (ESC up to the next 'm', ECMA-48 SGR) and line ends.
  function Strip(s: string): string
    decreases |s|
  {
    if s == "" then ""
    else if s[0] == ESC then Strip(AfterEscape(s))
    else if s[0] == '\r' || s[0] == '\n' then Strip(s[1..])
    else [s[0]] + Strip(s[1..])
  }

  function Take(s: string, n: nat): string {
    if |s| <= n then s else s[..n]
  }

  // The line that storing `text` puts in the ring, if it is not empty.
  function Line(text: string): string {
    Take(Strip(CStr(text)), LINE_LEN - 1)
  }

  /** What a buffer holds as a C string: all of it if it has no NUL, and otherwise what precedes the first. */
  lemma {:induction false} CStrExact(s: string, rest: string)
    requires NUL !in s && (rest == "" || rest[0] == NUL)
    ensures CStr(s + rest) == s
  {
    if s == "" {
      assert s + rest == rest;
    } else {
      assert (s + rest)[1..] == s[1..] + rest;
      CStrExact(s[1..], rest);
    }
  }

  /** A character that is neither an escape nor a line end is kept, a line end dropped, and stripping goes
      on behind it; an escape that is not completed drops the rest. With StripRemovesEscape, that is all
      there is to stripping. */
  lemma StripExact(c: char, s: string)
    ensures Strip("") == ""
    ensures Plain(c) ==> Strip([c] + s) == [c] + Strip(s)
    ensures c == '\r' || c == '\n' ==> Strip([c] + s) == Strip(s)
    ensures c == ESC && 'm' !in s ==> Strip([c] + s) == ""
  {
    assert ([c] + s)[1..] == s;
    if c == ESC && 'm' !in s {
      NoEnd([c] + s);
    }
  }

  lemma {:induction false} NoEnd(s: string)
    requires 'm' !in s
    ensures AfterEscape(s) == ""
  {
    if s != "" {
      NoEnd(s[1..]);
    }
  }

  /** A line is the first 127 characters of the stripped text, or all of it if there are fewer. */
  lemma LineExact(text: string)
    ensures Line(text) <= Strip(CStr(text))
    ensures |Line(text)| == if |Strip(CStr(text))| < 127 then |Strip(CStr(text))| else 127
  {
  }

  lemma StripAt(s: string, r: nat)
    requires r < |s|
    ensures Strip(s[r..]) == if s[r] == ESC then Strip(AfterEscape(s[r..]))
                             else if s[r] == '\r' || s[r] == '\n' then Strip(s[r + 1..])
                             else [s[r]] + Strip(s[r + 1..])
  {
    assert s[r..][1..] == s[r + 1..];
  }

  // After r characters of s, exactly `kept` has been copied.
  predicate Copied(s: string, r: nat, kept: string) {
    r <= |s| && kept + Strip(s[r..]) == Strip(s)
  }

  lemma CopiedMore(s: string, r: nat, kept: string, next: nat)
    requires Copied(s, r, kept) && r < |s| && next <= |s|
    requires if s[r] == ESC then s[next..] == AfterEscape(s[r..]) else next == r + 1
    ensures Copied(s, next, if Plain(s[r]) then kept + [s[r]] else kept)
  {
    StripAt(s, r);
    assert kept + ([s[r]] + Strip(s[r + 1..])) == kept + [s[r]] + Strip(s[r + 1..]);
  }

  lemma CopiedAll(s: string, r: nat, kept: string)
    requires Copied(s, r, kept) && |kept| < LINE_LEN
    requires r == |s| || |kept| == LINE_LEN - 1
    ensures kept == Take(Strip(s), LINE_LEN - 1)
  {
    assert s[|s|..] == "";
  }

  predicate Plain(c: char) {
    c != ESC && c != '\r' && c != '\n'
  }

  lemma {:induction false} CStrIs(buf: string)
    ensures CStr(buf) <= buf && NUL !in CStr(buf)
    ensures |CStr(buf)| < |buf| ==> buf[|CStr(buf)|] == NUL
  {
    if buf != "" && buf[0] != NUL {
      CStrIs(buf[1..]);
    }
  }

  // A terminator forced at n changes nothing if the string ends there or before.
  lemma {:induction false} CStrCut(buf: string, n: nat)
    requires |CStr(buf)| <= n <= |buf|
    ensures CStr(buf[..n]) == CStr(buf)
  {
    if buf != "" && buf[0] != NUL {
      CStrCut(buf[1..], n - 1);
      assert buf[..n][1..] == buf[1..][..n - 1];
    }
  }

  // Scanning a buffer until its NUL or its end visits exactly its C string.
  lemma ScanAt(text: string, r: nat)
    requires r <= |CStr(text)|
    ensures |CStr(text)| <= |text|
    ensures (r < |text| && text[r] != NUL) <==> r < |CStr(text)|
    ensures r < |CStr(text)| ==> text[r] == CStr(text)[r]
  {
    CStrIs(text);
  }

  lemma LineFacts(text: string)
    ensures NUL !in Line(text) && |Line(text)| < LINE_LEN
  {
    CStrIs(text);
    StripPlain(CStr(text));
    assert forall c | c in Line(text) :: c in Strip(CStr(text));
  }

  lemma {:induction false} CStrUpTo(s: string, rest: string)
    requires NUL !in s
    ensures CStr(s + [NUL] + rest) == s
  {
    if s == "" {
      assert (s + [NUL] + rest)[0] == NUL;
    } else {
      assert (s + [NUL] + rest)[1..] == s[1..] + [NUL] + rest;
      CStrUpTo(s[1..], rest);
    }
  }

  lemma {:induction false} AfterEscapeWithin(s: string, c: char)
    requires c !in s
    ensures c !in AfterEscape(s)
  {
    if s != "" && s[0] != 'm' {
      AfterEscapeWithin(s[1..], c);
    }
  }

  /** Stripping leaves only plain characters, and none that was not there. */
  lemma {:induction false} StripPlain(s: string)
    ensures forall c | c in Strip(s) :: Plain(c)
    ensures NUL !in s ==> NUL !in Strip(s)
    decreases |s|
  {
    if s != "" {
      if s[0] == ESC {
        StripPlain(AfterEscape(s));
        if NUL !in s {
          AfterEscapeWithin(s, NUL);
        }
      } else {
        StripPlain(s[1..]);
      }
    }
  }

  lemma {:induction false} StripOfPlain(s: string)
    requires forall c | c in s :: Plain(c)
    ensures Strip(s) == s
  {
    if s != "" {
      assert Plain(s[0]);
      assert forall c | c in s[1..] :: c in s;
      StripOfPlain(s[1..]);
    }
  }

  /** Stripping is idempotent, and so is the whole of what store() does to a line. */
  lemma {:induction false} StripIdempotent(text: string)
    ensures Strip(Strip(text)) == Strip(text)
    ensures Line(Line(text)) == Line(text)
  {
    StripPlain(text);
    StripOfPlain(Strip(text));
    CStrIs(text);
    StripPlain(CStr(text));
    var line := Line(text);
    assert line <= Strip(CStr(text));
    assert forall c | c in line :: c in Strip(CStr(text));
    CStrUpTo(line, "");
    CStrNoNul(line);
    StripOfPlain(line);
  }

  lemma {:induction false} CStrNoNul(s: string)
    requires NUL !in s
    ensures CStr(s) == s
  {
    if s != "" {
      CStrNoNul(s[1..]);
    }
  }

  lemma {:induction false} StripAppends(before: string, tail: string)
    requires ESC !in before
    ensures Strip(before + tail) == Strip(before) + Strip(tail)
  {
    if before == "" {
      assert before + tail == tail;
    } else {
      var s := before + tail;
      StripAppends(before[1..], tail);
      assert s[1..] == before[1..] + tail && s[0] == before[0] != ESC;
      assert [s[0]] + (Strip(before[1..]) + Strip(tail)) == [s[0]] + Strip(before[1..]) + Strip(tail);
    }
  }

  /** A complete escape sequence in the middle of a line disappears without a trace, whatever
      surrounds it. */
  lemma StripRemovesEscape(before: string, code: string, after: string)
    requires ESC !in before && 'm' !in code
    ensures Strip(before + [ESC] + code + "m" + after) == Strip(before) + Strip(after)
  {
    var tail := [ESC] + code + "m" + after;
    assert before + [ESC] + code + "m" + after == before + tail;
    StripAppends(before, tail);
    AfterCode([ESC] + code, after);
    assert tail[0] == ESC;
  }

  lemma {:induction false} AfterCode(code: string, after: string)
    requires 'm' !in code
    ensures AfterEscape(code + "m" + after) == after
  {
    if code == "" {
      assert (code + "m" + after)[1..] == after;
    } else {
      assert (code + "m" + after)[1..] == code[1..] + "m" + after;
      AfterCode(code[1..], after);
    }
  }
}

module LogRing {
  import opened Wrappers
  import opened LogText

  const LINES: nat := 96

  function Held(stored: nat): nat {
    Min(stored, LINES)
  }

  // The log after one more text has been stored.
  function Appended(log: seq<string>, text: string): seq<string> {
    if Line(text) == "" then log else log + [Line(text)]
  }

  function AppendedAll(log: seq<string>, texts: seq<string>): seq<string>
    decreases |texts|
  {
    if texts == [] then log else AppendedAll(Appended(log, texts[0]), texts[1..])
  }

  // The lines that these texts leave in the log: one for each that is not empty when stripped.
  function Lines(texts: seq<string>): seq<string> {
    if texts == [] then []
    else (if Line(texts[0]) != "" then [Line(texts[0])] else []) + Lines(texts[1..])
  }

  /** The history is what it was, followed by the non-empty lines of the texts stored since, in order. */
  lemma {:induction false} HistoryExact(log: seq<string>, texts: seq<string>)
    ensures AppendedAll(log, texts) == log + Lines(texts)
    decreases |texts|
  {
    if texts != [] {
      HistoryExact(Appended(log, texts[0]), texts[1..]);
    } else {
      assert log + [] == log;
    }
  }

  lemma {:induction false} LinesConcat(a: seq<string>, b: seq<string>)
    ensures Lines(a + b) == Lines(a) + Lines(b)
  {
    if a == [] {
      assert a + b == b;
    } else {
      assert (a + b)[1..] == a[1..] + b;
      LinesConcat(a[1..], b);
    }
  }

  // All texts of the first n batches.
  function Stored(others: seq<seq<string>>, n: nat): seq<string> {
    if n == 0 then [] else Stored(others, n - 1) + Batch(others, n - 1)
  }

  lemma Assoc(a: seq<string>, b: seq<string>, c: seq<string>)
    ensures a + b + c == a + (b + c)
  {
  }

  lemma BatchMore(log: seq<string>, a: seq<string>, b: seq<string>)
    ensures AppendedAll(log + Lines(a), b) == log + Lines(a + b)
  {
    HistoryExact(log + Lines(a), b);
    LinesConcat(a, b);
    Assoc(log, Lines(a), Lines(b));
  }

  predicate BatchesAre(log: seq<string>, others: seq<seq<string>>, n: nat) {
    LogAfter(log, others, n) == log + Lines(Stored(others, n))
  }

  lemma BatchesStart(log: seq<string>, others: seq<seq<string>>, n: nat)
    requires n == 0
    ensures BatchesAre(log, others, n)
  {
    assert Lines([]) == [] && log + [] == log;
  }

  lemma BatchesMore(log: seq<string>, others: seq<seq<string>>, n: nat)
    requires n > 0 && BatchesAre(log, others, n - 1)
    ensures BatchesAre(log, others, n)
  {
    BatchMore(log, Stored(others, n - 1), Batch(others, n - 1));
  }

  lemma {:induction false} BatchesExact(log: seq<string>, others: seq<seq<string>>, n: nat)
    ensures BatchesAre(log, others, n)
  {
    if n == 0 {
      BatchesStart(log, others, n);
    } else {
      BatchesExact(log, others, n - 1);
      BatchesMore(log, others, n);
    }
  }

  // A line that fits on a line of the rendering.
  predicate OneLine(line: string) {
    '\n' !in line
  }

  lemma {:induction false} LinesPlain(texts: seq<string>)
    ensures forall i | 0 <= i < |Lines(texts)| :: OneLine(Lines(texts)[i])
  {
    if texts != [] {
      LinesPlain(texts[1..]);
      StripPlain(CStr(texts[0]));
      assert forall c | c in Line(texts[0]) :: c in Strip(CStr(texts[0]));
    }
  }

  // The lines of a rendering, each ended by a line feed.
  function Split(out: string, line: string): seq<string>
    decreases |out|
  {
    if out == "" then []
    else if out[0] == '\n' then [line] + Split(out[1..], "")
    else Split(out[1..], line + [out[0]])
  }

  lemma {:induction false} SplitLine(start: string, line: string, rest: string)
    requires OneLine(line)
    ensures Split(line + "\n" + rest, start) == [start + line] + Split(rest, "")
    decreases |line|
  {
    var out := line + "\n" + rest;
    if line == "" {
      assert out[1..] == rest && start + line == start;
    } else {
      assert out[1..] == line[1..] + "\n" + rest;
      SplitLine(start + [line[0]], line[1..], rest);
      assert start + [line[0]] + line[1..] == start + line;
    }
  }

  function Chosen(log: seq<string>, picks: seq<int>): seq<string>
    requires InLog(log, picks)
  {
    seq(|picks|, i requires 0 <= i < |picks| => log[picks[i]])
  }

  lemma {:induction false} SplitJoined(log: seq<string>, picks: seq<int>, rest: string)
    requires InLog(log, picks) && forall i | 0 <= i < |log| :: OneLine(log[i])
    ensures Split(Joined(log, picks) + rest, "") == Chosen(log, picks) + Split(rest, "")
    decreases |picks|
  {
    if picks == [] {
      assert Joined(log, picks) + rest == rest;
    } else {
      var front, line := picks[..|picks| - 1], log[picks[|picks| - 1]];
      SplitJoined(log, front, line + "\n" + rest);
      SplitLine("", line, rest);
      assert Joined(log, picks) + rest == Joined(log, front) + (line + "\n" + rest);
      assert Chosen(log, picks) == Chosen(log, front) + [line];
      assert "" + line == line;
      assert Chosen(log, front) + ([line] + Split(rest, "")) == Chosen(log, front) + [line] + Split(rest, "");
    }
  }

  /** A rendering read back line by line is exactly the lines that the reader's sections copied. */
  lemma RenderingReadsBack(start: seq<string>, others: seq<seq<string>>, sizes: seq<nat>, log: seq<string>, out: string)
    requires Rendering(start, others, sizes, log, out)
    requires forall i | 0 <= i < |start| :: OneLine(start[i])
    ensures Split(out, "") == Chosen(log, Picked(sizes))
  {
    LogPlain(start, others, if |sizes| < LINES then |sizes| + 1 else LINES);
    SplitAll(log, Picked(sizes));
  }

  lemma LogPlain(start: seq<string>, others: seq<seq<string>>, n: nat)
    requires forall i | 0 <= i < |start| :: OneLine(start[i])
    ensures forall i | 0 <= i < |LogAfter(start, others, n)| :: OneLine(LogAfter(start, others, n)[i])
  {
    var lines := Lines(Stored(others, n));
    BatchesExact(start, others, n);
    LinesPlain(Stored(others, n));
    forall i | 0 <= i < |start + lines|
      ensures OneLine((start + lines)[i])
    {
      if i >= |start| {
        assert (start + lines)[i] == lines[i - |start|];
      }
    }
  }

  lemma SplitAll(log: seq<string>, picks: seq<int>)
    requires InLog(log, picks) && forall i | 0 <= i < |log| :: OneLine(log[i])
    ensures Split(Joined(log, picks), "") == Chosen(log, picks)
  {
    SplitJoined(log, picks, "");
    assert Joined(log, picks) + "" == Joined(log, picks) && Chosen(log, picks) + [] == Chosen(log, picks);
  }

  // Left alone, those are the latest 96 lines.
  lemma QuietlyChosen(log: seq<string>, sizes: seq<nat>)
    requires |sizes| == Held(|log|) && forall i | 0 <= i < |sizes| :: sizes[i] == |log|
    ensures InLog(log, Picked(sizes)) && Chosen(log, Picked(sizes)) == if |log| < 96 then log else log[|log| - 96..]
  {
  }

  // The log after the first n batches of texts stored by other tasks.
  function LogAfter(log: seq<string>, others: seq<seq<string>>, n: nat): seq<string> {
    if n == 0 then log
    else AppendedAll(LogAfter(log, others, n - 1), Batch(others, n - 1))
  }

  function Batch(others: seq<seq<string>>, i: nat): seq<string> {
    if i < |others| then others[i] else []
  }

  // The place in the whole history of the i-th oldest line held, when `stored` lines have been stored.
  function Pick(stored: nat, i: nat): int {
    stored - Held(stored) + i
  }

  // sizes[i] is the length of the history that the reader's i-th locked section finds, for every
  // section that finds a line to copy.
  ghost predicate Readable(sizes: seq<nat>) {
    && (forall i | 0 <= i < |sizes| :: i < Held(sizes[i]))
    && (forall i, j | 0 <= i <= j < |sizes| :: sizes[i] <= sizes[j])
  }

  // The lines those sections copy, by their place in the history.
  function Picked(sizes: seq<nat>): (picks: seq<int>)
    ensures |picks| == |sizes| && forall i | 0 <= i < |sizes| :: picks[i] == Pick(sizes[i], i)
  {
    seq(|sizes|, i requires 0 <= i < |sizes| => Pick(sizes[i], i))
  }

  predicate InLog(log: seq<string>, picks: seq<int>) {
    forall k | 0 <= k < |picks| :: 0 <= picks[k] < |log|
  }

  // The rendering of these lines.
  function Joined(log: seq<string>, picks: seq<int>): string
    requires InLog(log, picks)
    decreases |picks|
  {
    if picks == [] then ""
    else Joined(log, picks[..|picks| - 1]) + log[picks[|picks| - 1]] + "\n"
  }

  /** Whatever other tasks store while the lock is dropped, the reader copies at most 96 lines of the
      history, in order and none twice; and between two of them it misses exactly as many lines as
      were evicted in between. */
  lemma PickedInOrder(sizes: seq<nat>, j: nat, k: nat)
    requires Readable(sizes) && j < k < |sizes|
    ensures |sizes| <= LINES
    ensures 0 <= Picked(sizes)[j] < Picked(sizes)[k] < sizes[k]
    ensures Picked(sizes)[k] - Picked(sizes)[j] - (k - j) == Pick(sizes[k], 0) - Pick(sizes[j], 0)
  {
    assert |sizes| - 1 < Held(sizes[|sizes| - 1]);
    assert sizes[j] <= sizes[k] && j < Held(sizes[j]) && k < Held(sizes[k]);
  }

  /** The reader can miss a line that is in the ring from its first locked section to its last: with
      the ring full, one line stored after the first section makes it skip the oldest line of
      those that remain. */
  lemma PickedMisses()
    ensures var sizes := seq(96, i => if i == 0 then 96 else 97);
            Readable(sizes) && 1 !in Picked(sizes) && Pick(96, 0) <= 1 && Pick(97, 0) <= 1
  {
    var sizes := seq(96, i => if i == 0 then 96 else 97);
    assert forall k | 1 <= k < 96 :: Picked(sizes)[k] == 1 + k;
  }

  lemma {:induction false} GrowsByPrefix(log: seq<string>, texts: seq<string>)
    ensures log <= AppendedAll(log, texts)
    decreases |texts|
  {
    if texts != [] {
      GrowsByPrefix(Appended(log, texts[0]), texts[1..]);
    }
  }

  lemma {:induction false} QuietLog(log: seq<string>, others: seq<seq<string>>, n: nat)
    requires forall i | 0 <= i < |others| :: others[i] == []
    ensures LogAfter(log, others, n) == log
  {
    if n > 0 {
      QuietLog(log, others, n - 1);
    }
  }

  /** Left alone, the reader copies exactly the lines the ring holds: what its contract says when
      nothing is stored in between. */
  lemma RenderedQuietly(log: seq<string>, others: seq<seq<string>>, sizes: seq<nat>, end: seq<string>, out: string)
    requires forall i | 0 <= i < |others| :: others[i] == []
    requires Rendering(log, others, sizes, end, out)
    ensures end == log && out == Joined(log, Picked(sizes))
    ensures |sizes| == Held(|log|)
    ensures forall i | 0 <= i < Held(|log|) :: Picked(sizes)[i] == |log| - Held(|log|) + i
    ensures (forall i | 0 <= i < |log| :: OneLine(log[i])) ==>
              Split(out, "") == if |log| < 96 then log else log[|log| - 96..]
  {
    forall n: nat
      ensures LogAfter(log, others, n) == log
    {
      QuietLog(log, others, n);
    }
    if sizes != [] {
      assert |sizes| - 1 < Held(sizes[|sizes| - 1]);
    }
    if forall i | 0 <= i < |log| :: OneLine(log[i]) {
      SplitAll(log, Picked(sizes));
      QuietlyChosen(log, sizes);
    }
  }

  // The lengths of the history that successive locked sections find.
  ghost predicate Found(start: seq<string>, others: seq<seq<string>>, sizes: seq<nat>) {
    forall k | 0 <= k < |sizes| :: sizes[k] == |LogAfter(start, others, k + 1)|
  }

  lemma FoundMore(start: seq<string>, others: seq<seq<string>>, sizes: seq<nat>)
    requires Found(start, others, sizes)
    ensures Found(start, others, sizes + [|LogAfter(start, others, |sizes| + 1)|])
  {
  }

  // The state of the reader after its locked sections `sizes`, when the history is `log`.
  ghost predicate Rendered(start: seq<string>, others: seq<seq<string>>, sizes: seq<nat>, log: seq<string>, out: string) {
    && Readable(sizes) && |sizes| <= LINES
    && (sizes != [] ==> sizes[|sizes| - 1] == |log|)
    && Found(start, others, sizes)
    && InLog(log, Picked(sizes)) && out == Joined(log, Picked(sizes))
  }

  lemma ReadableMore(sizes: seq<nat>, size: nat)
    requires Readable(sizes) && |sizes| < Held(size) && (sizes != [] ==> sizes[|sizes| - 1] <= size)
    ensures Readable(sizes + [size])
    ensures Picked(sizes + [size]) == Picked(sizes) + [Pick(size, |sizes|)]
  {
  }

  lemma RenderedMore(start: seq<string>, others: seq<seq<string>>, sizes: seq<nat>, log: seq<string>, out: string, more: seq<string>)
    requires Rendered(start, others, sizes, log, out) && log <= more
    requires |sizes| < LINES && |sizes| < Held(|more|) && more == LogAfter(start, others, |sizes| + 1)
    ensures Rendered(start, others, sizes + [|more|], more, out + more[Pick(|more|, |sizes|)] + "\n")
  {
    ReadableMore(sizes, |more|);
    FoundMore(start, others, sizes);
    JoinedPrefix(log, more, Picked(sizes));
    JoinedSnoc(more, Picked(sizes), Pick(|more|, |sizes|));
  }

  // What a complete rendering is: the reader stopped after 96 sections, or at a section that found no
  // further line, and `out` is the rendering of the lines its sections copied.
  ghost predicate Rendering(start: seq<string>, others: seq<seq<string>>, sizes: seq<nat>, log: seq<string>, out: string) {
    && Readable(sizes) && |sizes| <= LINES
    && Found(start, others, sizes)
    && log == LogAfter(start, others, if |sizes| < LINES then |sizes| + 1 else LINES)
    && (|sizes| == LINES || |sizes| >= Held(|log|))
    && InLog(log, Picked(sizes)) && out == Joined(log, Picked(sizes))
  }

  lemma RenderedEnds(start: seq<string>, others: seq<seq<string>>, sizes: seq<nat>, log: seq<string>, out: string, more: seq<string>)
    requires Rendered(start, others, sizes, log, out) && log <= more
    requires more == LogAfter(start, others, |sizes| + 1) && Held(|more|) <= |sizes| < LINES
    ensures Rendering(start, others, sizes, more, out)
  {
    JoinedPrefix(log, more, Picked(sizes));
  }

  lemma {:induction false} JoinedPrefix(log: seq<string>, more: seq<string>, picks: seq<int>)
    requires log <= more && InLog(log, picks)
    ensures InLog(more, picks) && Joined(log, picks) == Joined(more, picks)
    decreases |picks|
  {
    if picks != [] {
      JoinedPrefix(log, more, picks[..|picks| - 1]);
    }
  }

  lemma JoinedSnoc(log: seq<string>, picks: seq<int>, pick: nat)
    requires InLog(log, picks) && pick < |log|
    ensures InLog(log, picks + [pick])
    ensures Joined(log, picks + [pick]) == Joined(log, picks) + log[pick] + "\n"
  {
    assert (picks + [pick])[..|picks|] == picks;
  }

  class Ring {
    var lines: array<string>
    var head: nat
    var count: nat
    ghost var log: seq<string>

    ghost predicate Valid()
      reads this, lines
    {
      && lines.Length == LINES
      && (forall k: nat | k < LINES :: Sized(k))
      && count == Held(|log|)
      && head == |log| % LINES
      && (forall j: nat | |log| - count <= j < |log| :: Holds(j))
    }

    ghost predicate Sized(k: nat)
      reads this, lines
      requires k < lines.Length
    {
      |lines[k]| == LINE_LEN
    }

    // The slot for line j of the history holds that line.
    ghost predicate Holds(j: nat)
      reads this, lines
      requires lines.Length == LINES && j < |log|
    {
      CStr(lines[j % LINES]) == log[j] && |log[j]| < LINE_LEN
    }

    constructor ()
      ensures Valid() && fresh(lines) && log == []
    {
      lines := new string[LINES](_ => seq(LINE_LEN, _ => NUL));
      head, count, log := 0, 0, [];
    }

    // The copy loop of store(): `clean` receives the stripped line and its terminator.
    method Clean(text: string) returns (clean: array<char>, w: nat)
      ensures fresh(clean) && clean.Length == LINE_LEN && w < LINE_LEN
      ensures clean[..w] == Line(text) && clean[w] == NUL
    {
      ghost var s := CStr(text);
      clean := new char[LINE_LEN](_ => NUL);
      w := 0;
      var r := 0;
      ghost var kept := "";
      ScanAt(text, 0);
      while r < |text| && text[r] != NUL && w < LINE_LEN - 1
        invariant r <= |s| <= |text| && w <= LINE_LEN - 1
        invariant (r < |text| && text[r] != NUL) <==> r < |s|
        invariant |kept| == w && forall k | 0 <= k < w :: clean[k] == kept[k]
        invariant Copied(s, r, kept)
        decreases |s| - r
      {
        var c, next := text[r], r + 1;
        ScanAt(text, r);
        if c == ESC {
          next := SkipEscape(text, r);
          if next < |text| && text[next] != NUL {
            next := next + 1;
          }
        }
        CopiedMore(s, r, kept, next);
        if Plain(c) {
          clean[w] := c;
          kept := kept + [c];
          w := w + 1;
        }
        r := next;
        ScanAt(text, r);
      }
      CopiedAll(s, r, kept);
      clean[w] := NUL;
      assert clean[..w] == kept;
    }

    // The inner loop of the copy: from an escape to its 'm', or to the end of the text.
    method SkipEscape(text: string, start: nat) returns (r: nat)
      requires start <= |CStr(text)|
      ensures start <= r <= |CStr(text)| <= |text|
      ensures if r == |text| || text[r] == NUL then r == |CStr(text)| && AfterEscape(CStr(text)[start..]) == ""
              else r < |CStr(text)| && AfterEscape(CStr(text)[start..]) == CStr(text)[r + 1..]
    {
      ghost var s := CStr(text);
      CStrIs(text);
      r := start;
      while r < |text| && text[r] != NUL && text[r] != 'm'
        invariant start <= r <= |s| && AfterEscape(s[r..]) == AfterEscape(s[start..])
        decreases |s| - r
      {
        assert s[r..][1..] == s[r + 1..];
        r := r + 1;
      }
      if r < |s| {
        assert s[r..][1..] == s[r + 1..];
      }
    }

    /** Appends the stripped line to the history, unless nothing is left of it. */
    method Store(text: string)
      requires Valid()
      modifies this, lines
      ensures Valid() && lines == old(lines)
      ensures log == Appended(old(log), text)
      ensures log == if Line(text) != "" then old(log) + [Line(text)] else old(log)
    {
      var clean, w := Clean(text);
      if w == 0 {
        return;
      }
      LineFacts(text);
      assert Sized(head);
      assert clean[..w + 1] == clean[..w] + [NUL];
      CStrUpTo(clean[..w], lines[head][w + 1..]);
      Push(clean[..w + 1] + lines[head][w + 1..], clean[..w]);
    }

    // The slot at the head takes the line, and stale bytes of an older one after its terminator.
    method Push(slot: string, ghost line: string)
      requires Valid() && |slot| == LINE_LEN && CStr(slot) == line && |line| < LINE_LEN
      modifies this, lines
      ensures Valid() && lines == old(lines)
      ensures log == old(log) + [line]
    {
      assert forall k: nat | k < LINES :: Sized(k) && |lines[k]| == LINE_LEN;
      lines[head] := slot;
      forall j: nat | |log| - LINES < j < |log| && |log| - count <= j
        ensures CStr(lines[j % LINES]) == log[j] && |log[j]| < LINE_LEN
      {
        OtherSlot(|log|, j);
        assert old(Holds(j));
      }
      NextSlot(|log|);
      assert forall k: nat | k < LINES :: |lines[k]| == LINE_LEN && Sized(k);
      head := (head + 1) % LINES;
      if count < LINES {
        count := count + 1;
      }
      log := log + [line];
    }

    lemma OtherSlot(n: nat, j: nat)
      requires n - LINES < j < n
      ensures j % LINES != n % LINES
    {
    }

    lemma NextSlot(n: nat)
      ensures (n % LINES + 1) % LINES == (n + 1) % LINES
    {
    }

    method StoreAll(texts: seq<string>)
      requires Valid()
      modifies this, lines
      ensures Valid() && lines == old(lines)
      ensures log == AppendedAll(old(log), texts)
      decreases |texts|
    {
      if texts != [] {
        Store(texts[0]);
        StoreAll(texts[1..]);
      }
    }

    // One turn of render(): other tasks store `texts`, then the locked section copies the i-th oldest
    // line held, if there is one.
    method Section(texts: seq<string>, i: nat) returns (line: Option<string>)
      requires Valid()
      modifies this, lines
      ensures Valid() && lines == old(lines)
      ensures log == AppendedAll(old(log), texts)
      ensures line == if i < Held(|log|) then Some(log[Pick(|log|, i)]) else None
    {
      StoreAll(texts);
      if i >= count {
        return None;
      }
      var idx := (head + LINES - count + i) % LINES;
      SlotOf(|log|, count, i);
      assert Holds(|log| - count + i) && Sized(idx);
      CStrCut(lines[idx], LINE_LEN - 1);
      line := Some(CStr(lines[idx][..LINE_LEN - 1]));
    }

    /** Appends the ring, oldest line first, dropping the lock between lines. `others[i]` is what other
        tasks store before the i-th locked section; `sizes[i]` is the length of the history that
        section finds. */
    method Render(others: seq<seq<string>>) returns (out: string, ghost sizes: seq<nat>)
      requires Valid()
      modifies this, lines
      ensures Valid() && lines == old(lines)
      ensures Rendering(old(log), others, sizes, log, out)
    {
      out, sizes := "", [];
      var i := 0;
      while i < LINES
        invariant 0 <= i == |sizes| <= LINES && Valid() && lines == old(lines)
        invariant log == LogAfter(old(log), others, i)
        invariant Rendered(old(log), others, sizes, log, out)
      {
        ghost var before := log;
        GrowsByPrefix(log, Batch(others, i));
        var line := Section(Batch(others, i), i);
        if line.None? {
          RenderedEnds(old(log), others, sizes, before, out, log);
          return;
        }
        RenderedMore(old(log), others, sizes, before, out, log);
        out := out + line.value + "\n";
        sizes := sizes + [|log|];
        i := i + 1;
      }
    }

    lemma SlotOf(n: nat, held: nat, i: nat)
      requires held <= n && held <= LINES && i < held
      ensures (n % LINES + LINES - held + i) % LINES == (n - held + i) % LINES
    {
    }

    method Count() returns (n: nat)
      requires Valid()
      ensures n == if |log| < 96 then |log| else 96
    {
      n := count;
    }
  }
}
