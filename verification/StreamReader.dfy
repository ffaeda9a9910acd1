/** The reader of a patch stream: raw text in chunks, file diffs as items, and every input line in exactly one of
    them. */
module StreamReader {
  import opened Lists

  const RAW_LIMIT := 8 * 1024
  const HUNK_LIMIT := 50000

  /** One file of the stream: what its header names, and the raw lines kept for it. */
  datatype Hunk = Hunk(oldPath: string, newPath: string, oldOid: string, newOid: string, lines: seq<string>,
                       streamingRaw: bool)

  /** What goes to the flusher: text to pass on, or a file to diff. */
  datatype Item = Raw(text: string) | Diff(hunk: Hunk)

  /** How lines are cleaned and headers read, and whether the blobs of the k-th complete hunk can be fetched. */
  datatype Source = Source(
    clean: string -> string, gitPaths: string -> (string, string), oids: string -> (string, string),
    headerPath: (string, string) -> string, fetched: (Hunk, nat) -> bool)

  predicate HasPrefix(s: string, p: string) {
    p <= s
  }

  predicate StartsCommit(clean: string) {
    HasPrefix(clean, "commit ") || HasPrefix(clean, "From ")
  }

  predicate StartsCombined(clean: string) {
    HasPrefix(clean, "diff --combined ") || HasPrefix(clean, "diff --cc ")
  }

  function Concat(lines: seq<string>): string {
    if lines == [] then "" else lines[0] + Concat(lines[1..])
  }

  lemma {:induction false} ConcatPush(lines: seq<string>, line: string)
    ensures Concat(lines + [line]) == Concat(lines) + line
  {
    if lines == [] {
      assert lines + [line] == [line] && [line][1..] == [];
      assert line + "" == line && "" + line == line;
    } else {
      assert (lines + [line])[1..] == lines[1..] + [line];
      ConcatPush(lines[1..], line);
      assert lines[0] + (Concat(lines[1..]) + line) == (lines[0] + Concat(lines[1..])) + line;
    }
  }

  /** The input text that an item stands for. */
  function Expand(item: Item): string {
    match item
    case Raw(text) => text
    case Diff(hunk) => Concat(hunk.lines)
  }

  function ExpandAll(items: seq<Item>): string {
    if items == [] then "" else Expand(items[0]) + ExpandAll(items[1..])
  }

  lemma {:induction false} ExpandPush(items: seq<Item>, item: Item)
    ensures ExpandAll(items + [item]) == ExpandAll(items) + Expand(item)
  {
    if items == [] {
      assert items + [item] == [item] && [item][1..] == [];
      assert Expand(item) + "" == Expand(item) && "" + Expand(item) == Expand(item);
    } else {
      assert (items + [item])[1..] == items[1..] + [item];
      ExpandPush(items[1..], item);
      var x, y, z := Expand(items[0]), ExpandAll(items[1..]), Expand(item);
      assert x + (y + z) == (x + y) + z;
    }
  }

  predicate Complete(h: Hunk) {
    h.oldPath != "" && h.newPath != "" && h.oldOid != "" && h.newOid != ""
  }

  /** Chunks are not empty, and short only before a diff; files are queued only with both paths and both blobs named. */
  ghost predicate WellFormed(queue: seq<Item>) {
    && (forall k :: 0 <= k < |queue| ==> if queue[k].Raw? then queue[k].text != "" else Complete(queue[k].hunk))
    && forall k :: 0 <= k < |queue| - 1 && queue[k].Raw? && queue[k + 1].Raw? ==> |queue[k].text| >= RAW_LIMIT
  }

  /** The last chunk, if one is last, is full, so that another may follow it. */
  ghost predicate Ready(queue: seq<Item>) {
    WellFormed(queue) && (queue != [] && queue[|queue| - 1].Raw? ==> |queue[|queue| - 1].text| >= RAW_LIMIT)
  }

  /** After a diff, any chunk may follow. */
  lemma DiffFollows(queue: seq<Item>, h: Hunk)
    requires WellFormed(queue) && Complete(h)
    ensures Ready(queue + [Diff(h)])
  {
  }

  /** What a header line changes in the hunk. */
  function Header(s: Source, h: Hunk, clean: string): Hunk {
    if HasPrefix(clean, "index ") && h.oldOid == "" then
      var oids := s.oids(clean);
      h.(oldOid := oids.0, newOid := oids.1)
    else if s.headerPath(clean, "rename from ") != "" then h.(oldPath := s.headerPath(clean, "rename from "))
    else if s.headerPath(clean, "rename to ") != "" then h.(newPath := s.headerPath(clean, "rename to "))
    else if s.headerPath(clean, "--- ") != "" then h.(oldPath := s.headerPath(clean, "--- "))
    else if s.headerPath(clean, "+++ ") != "" then h.(newPath := s.headerPath(clean, "+++ "))
    else h
  }

  // ---------------------------------------------------------------- which files are diffed

  /** The files among the items. */
  function Files(items: seq<Item>): seq<Hunk> {
    if items == [] then []
    else Files(items[..|items| - 1]) + if items[|items| - 1].Diff? then [items[|items| - 1].hunk] else []
  }

  lemma FilesPush(items: seq<Item>, item: Item)
    ensures Files(items + [item]) == Files(items) + if item.Diff? then [item.hunk] else []
  {
    assert (items + [item])[..|items|] == items;
  }

  /** What is known after some lines: the current file, how many fetches were tried, and the files to diff. */
  datatype Progress = Progress(current: Option<Hunk>, asked: nat, files: seq<Hunk>)

  /** The blobs of a file are fetched when it ends, unless its header is incomplete or it was passed on already. */
  predicate Fetches(h: Option<Hunk>) {
    h.Some? && !h.value.streamingRaw && Complete(h.value)
  }

  /** The current file ends; it is to be diffed if its blobs can be had. */
  function Ended(s: Source, p: Progress): Progress {
    if !Fetches(p.current) then p.(current := None)
    else Progress(None, p.asked + 1,
                  p.files + if s.fetched(p.current.value, p.asked + 1) then [p.current.value] else [])
  }

  /** The current file with one more line. */
  function WithLine(s: Source, h: Hunk, line: string): Hunk {
    if h.streamingRaw then h
    else if |h.lines| + 1 > HUNK_LIMIT then h.(lines := [], streamingRaw := true)
    else Header(s, h.(lines := h.lines + [line]), s.clean(line))
  }

  predicate StartsFile(s: Source, line: string) {
    HasPrefix(s.clean(line), "diff --git ")
  }

  /** A line that ends the current file. */
  predicate EndsFile(s: Source, line: string) {
    StartsCommit(s.clean(line)) || StartsFile(s, line) || StartsCombined(s.clean(line))
  }

  function Opened(s: Source, line: string): Hunk {
    var paths := s.gitPaths(s.clean(line));
    Hunk(paths.0, paths.1, "", "", [line], false)
  }

  function NextLine(s: Source, p: Progress, line: string): Progress {
    if StartsCommit(s.clean(line)) then Ended(s, p)
    else if StartsFile(s, line) then Ended(s, p).(current := Some(Opened(s, line)))
    else if StartsCombined(s.clean(line)) then Ended(s, p)
    else if p.current.Some? then p.(current := Some(WithLine(s, p.current.value, line)))
    else p
  }

  function Progressed(s: Source, lines: seq<string>): Progress {
    if lines == [] then Progress(None, 0, []) else NextLine(s, Progressed(s, lines[..|lines| - 1]), lines[|lines| - 1])
  }

  /** Consecutive lines of the input, of which the first and only the first starts or ends a file. */
  ghost predicate FileAt(s: Source, lines: seq<string>, at: nat, part: seq<string>) {
    && 0 < |part| <= HUNK_LIMIT && at + |part| <= |lines| && lines[at..at + |part|] == part
    && StartsFile(s, part[0]) && forall k :: 0 < k < |part| ==> !EndsFile(s, part[k])
  }

  ghost predicate InOnePiece(s: Source, lines: seq<string>, h: Hunk) {
    Complete(h) && exists at: nat :: FileAt(s, lines, at, h.lines)
  }

  /** The current file is the last lines read, and every file to diff is complete and was read in one piece. */
  ghost predicate InPieces(s: Source, lines: seq<string>, p: Progress) {
    && (p.current.Some? && !p.current.value.streamingRaw ==>
          var part := p.current.value.lines; |part| <= |lines| && FileAt(s, lines, |lines| - |part|, part))
    && forall k :: 0 <= k < |p.files| ==> InOnePiece(s, lines, p.files[k])
  }

  lemma PieceStays(s: Source, lines: seq<string>, line: string, at: nat, part: seq<string>)
    requires FileAt(s, lines, at, part)
    ensures FileAt(s, lines + [line], at, part)
    ensures at + |part| == |lines| && !EndsFile(s, line) && |part| < HUNK_LIMIT ==>
              FileAt(s, lines + [line], at, part + [line])
  {
    assert (lines + [line])[at..at + |part|] == part;
    if at + |part| == |lines| { assert (lines + [line])[at..at + |part| + 1] == part + [line]; }
  }

  /** Ending the current file keeps the files in pieces. */
  lemma EndedInPieces(s: Source, lines: seq<string>, p: Progress)
    requires InPieces(s, lines, p)
    ensures InPieces(s, lines, Ended(s, p))
  {
    hide FileAt;
    var r := Ended(s, p);
    forall k | 0 <= k < |r.files| ensures InOnePiece(s, lines, r.files[k]) {
      if k == |p.files| {
        assert FileAt(s, lines, |lines| - |r.files[k].lines|, r.files[k].lines);
      } else {
        assert r.files[k] == p.files[k];
      }
    }
  }

  lemma PiecesStay(s: Source, lines: seq<string>, p: Progress, line: string)
    requires InPieces(s, lines, p)
    ensures InPieces(s, lines + [line], p.(current := None))
  {
    hide FileAt;
    forall k | 0 <= k < |p.files| ensures InOnePiece(s, lines + [line], p.files[k]) {
      var at: nat :| FileAt(s, lines, at, p.files[k].lines);
      PieceStays(s, lines, line, at, p.files[k].lines);
    }
  }

  lemma WithLineLines(s: Source, h: Hunk, line: string)
    ensures var r := WithLine(s, h, line);
            !r.streamingRaw ==> !h.streamingRaw && r.lines == h.lines + [line] && |h.lines| < HUNK_LIMIT
  {
  }

  /** Every file to diff is complete and stands in the input in one piece that starts at its own header line. */
  lemma {:induction false} FilesInPieces(s: Source, lines: seq<string>)
    ensures InPieces(s, lines, Progressed(s, lines))
  {
    if lines != [] {
      var front, line := lines[..|lines| - 1], lines[|lines| - 1];
      FilesInPieces(s, front);
      assert front + [line] == lines;
      NextInPieces(s, front, Progressed(s, front), line);
    }
  }

  lemma NextInPieces(s: Source, lines: seq<string>, p: Progress, line: string)
    requires InPieces(s, lines, p)
    ensures InPieces(s, lines + [line], NextLine(s, p, line))
  {
    hide Header, InOnePiece;
    if EndsFile(s, line) {
      EndedInPieces(s, lines, p);
      PiecesStay(s, lines, Ended(s, p), line);
      var all := lines + [line];
      assert all[|all| - 1..|all|] == [line];
      if StartsFile(s, line) { assert FileAt(s, all, |all| - 1, [line]); }
    } else {
      PiecesStay(s, lines, p, line);
      if p.current.Some? {
        var h, r := p.current.value, WithLine(s, p.current.value, line);
        WithLineLines(s, h, line);
        if !r.streamingRaw {
          PieceStays(s, lines, line, |lines| - |h.lines|, h.lines);
          assert FileAt(s, lines + [line], |lines + [line]| - |r.lines|, r.lines);
        }
      }
    }
  }

  class Reader {
    const source: Source
    var buf: string
    var queue: seq<Item>
    var current: Option<Hunk>
    var asked: nat

    constructor (source: Source)
      ensures this.source == source && buf == "" && queue == [] && current == None && asked == 0
    {
      this.source := source;
      buf, queue, current, asked := "", [], None, 0;
    }

    /** Everything read so far: what is queued, what is in the chunk buffer, and what is kept for the current file. */
    ghost function Content(): string
      reads this
    {
      Sent() + Pending(current)
    }

    ghost function Sent(): string
      reads this
    {
      ExpandAll(queue) + buf
    }

    /** Where the reader stands. */
    ghost function Standing(): Progress
      reads this
    {
      Progress(current, asked, Files(queue))
    }

    ghost function Pending(h: Option<Hunk>): string {
      if h.None? || h.value.streamingRaw then "" else Concat(h.value.lines)
    }

    /** Appends to the chunk, and sends it once it is full. */
    method WriteString(s: string)
      requires Ready(queue)
      modifies this`buf, this`queue
      ensures Ready(queue) && Sent() == old(Sent()) + s && Files(queue) == old(Files(queue))
    {
      buf := buf + s;
      assert ExpandAll(queue) + (old(buf) + s) == (ExpandAll(queue) + old(buf)) + s;
      if |buf| >= RAW_LIMIT { Flush(); }
    }

    /** Sends the chunk, if there is anything in it. */
    method Flush()
      requires Ready(queue)
      modifies this`buf, this`queue
      ensures buf == "" && WellFormed(queue) && Sent() == old(Sent())
      ensures queue == old(queue) + if old(buf) == "" then [] else [Raw(old(buf))]
      ensures Files(queue) == old(Files(queue))
    {
      if |buf| == 0 { return; }
      FilesPush(queue, Raw(buf));
      ExpandPush(queue, Raw(buf));
      queue := queue + [Raw(buf)];
      buf := "";
      assert ExpandAll(queue) + "" == ExpandAll(queue);
    }

    method DumpLines(lines: seq<string>)
      requires Ready(queue)
      modifies this`buf, this`queue
      ensures Ready(queue) && Sent() == old(Sent()) + Concat(lines) && Files(queue) == old(Files(queue))
    {
      assert lines[..0] == [] && Sent() + "" == Sent();
      for k := 0 to |lines|
        invariant Ready(queue) && Sent() == old(Sent()) + Concat(lines[..k]) && Files(queue) == old(Files(queue))
      {
        ghost var x, y := old(Sent()), Concat(lines[..k]);
        WriteString(lines[k]);
        assert lines[..k + 1] == lines[..k] + [lines[k]];
        ConcatPush(lines[..k], lines[k]);
        assert (x + y) + lines[k] == x + (y + lines[k]);
      }
      assert lines[..|lines|] == lines;
    }

    /** Ends the current file: as an item if both its blobs can be had, as raw text otherwise. */
    method FlushCurrent()
      requires Ready(queue)
      modifies this
      ensures Ready(queue) && current == None && Content() == old(Content())
      ensures Standing() == Ended(source, old(Standing()))
    {
      hide ExpandAll, Files, Concat, Ready;
      if current == None { return; }
      var h := current.value;
      current := None;
      assert Sent() + "" == Sent();
      if h.streamingRaw { return; }
      if !Complete(h) {
        DumpLines(h.lines);
        assert Sent() + "" == Sent();
        return;
      }
      asked := asked + 1;
      if !source.fetched(h, asked) {
        DumpLines(h.lines);
        assert Sent() + "" == Sent();
        return;
      }
      SendDiff(h);
      assert Sent() + "" == Sent();
    }

    /** The chunk first, then the file. */
    method SendDiff(h: Hunk)
      requires Ready(queue) && Complete(h)
      modifies this`buf, this`queue
      ensures Ready(queue) && Sent() == old(Sent()) + Concat(h.lines) && Files(queue) == old(Files(queue)) + [h]
    {
      hide WellFormed, ExpandAll, Files;
      Flush();
      ExpandPush(queue, Diff(h));
      FilesPush(queue, Diff(h));
      DiffFollows(queue, h);
      assert ExpandAll(queue) + "" == ExpandAll(queue);
      queue := queue + [Diff(h)];
      assert ExpandAll(queue) + "" == ExpandAll(queue);
    }

    /** One line of the stream. */
    method ReadLine(line: string)
      requires Ready(queue)
      modifies this
      ensures Ready(queue) && Content() == old(Content()) + line
      ensures Standing() == NextLine(source, old(Standing()), line)
    {
      var cleanLine := source.clean(line);
      assert forall x: string :: x + "" == x;
      if StartsCommit(cleanLine) {
        FlushCurrent();
        WriteString(line);
      } else if HasPrefix(cleanLine, "diff --git ") {
        FlushCurrent();
        var paths := source.gitPaths(cleanLine);
        current := Some(Hunk(paths.0, paths.1, "", "", [line], false));
        ConcatPush([], line);
        assert [] + [line] == [line];
      } else if StartsCombined(cleanLine) {
        FlushCurrent();
        WriteString(line);
      } else if current.Some? && !current.value.streamingRaw {
        KeepLine(line, cleanLine);
      } else {
        WriteString(line);
      }
    }

    /** A line of the current file; a file that grows too long is passed on as raw text from then on. */
    method KeepLine(line: string, cleanLine: string)
      requires Ready(queue) && current.Some? && !current.value.streamingRaw && cleanLine == source.clean(line)
      modifies this
      ensures Ready(queue) && Content() == old(Content()) + line
      ensures Standing() == old(Standing()).(current := Some(WithLine(source, old(current).value, line)))
    {
      var h := current.value.(lines := current.value.lines + [line]);
      ConcatPush(current.value.lines, line);
      ghost var x, y := Sent(), Concat(current.value.lines);
      assert x + (y + line) == (x + y) + line;
      assert forall t: string :: t + "" == t;
      if |h.lines| > HUNK_LIMIT {
        DumpLines(h.lines);
        current := Some(h.(lines := [], streamingRaw := true));
      } else {
        current := Some(Header(source, h, cleanLine));
      }
    }

    /** The whole stream: the queued items, each diff expanded to its own lines, spell exactly the input, and the
        diffs are the complete files whose blobs can be had. */
    method Read(lines: seq<string>)
      requires buf == "" && queue == [] && current == None && asked == 0
      modifies this
      ensures Files(queue) == Ended(source, Progressed(source, lines)).files
      ensures WellFormed(queue) && ExpandAll(queue) == Concat(lines) && buf == "" && current == None
    {
      hide ExpandAll, Files, WellFormed, NextLine, Ended, Ready;
      NothingYet();
      assert lines[..0] == [];
      for k := 0 to |lines|
        invariant Ready(queue) && Content() == Concat(lines[..k])
        invariant Standing() == Progressed(source, lines[..k])
      {
        assert lines[..k + 1] == lines[..k] + [lines[k]];
        ConcatPush(lines[..k], lines[k]);
        ReadLine(lines[k]);
      }
      assert lines[..|lines|] == lines;
      FlushCurrent();
      Flush();
      assert (ExpandAll(queue) + "") + "" == ExpandAll(queue);
    }

    /** Before the first line. */
    lemma NothingYet()
      requires buf == "" && queue == [] && current == None
      ensures Ready(queue) && Content() == "" && Files(queue) == []
    {
    }
  }
}
