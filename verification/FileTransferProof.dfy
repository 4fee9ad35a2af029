/** The round trip: whatever the schedule of writes and short reads, the child writes exactly the
    files the parent could open, in order, and then stops. */
module FileTransferProof {
  import opened Text
  import opened FileTransfer

  // ---------- a header line ----------

  predicate OneLine(s: string) {
    forall i :: 0 <= i < |s| ==> s[i] != '\n'
  }

  /** A text that starts with a line can only be split at its first newline. */
  lemma FirstLine(h: string, rest: string, line: string, tail: string)
    requires h + rest == line + "\n" + tail && OneLine(h) && OneLine(line)
    ensures |h| <= |line| && rest != ""
    ensures rest[0] == '\n' ==> h == line && rest[1..] == tail
  {
    var s := line + "\n" + tail;
    assert s[|line|] == '\n';
    assert forall i :: 0 <= i < |h| ==> s[i] == (h + rest)[i] == h[i] != '\n';
    assert forall i :: 0 <= i < |line| ==> s[i] == line[i] != '\n';
    assert rest[0] == s[|h|];
    assert rest == s[|h|..];
    if rest[0] == '\n' {
      assert h == s[..|h|] == line;
    }
  }

  lemma LongDigits(n: nat)
    requires n <= LONG_MAX
    ensures |Decimal(n)| <= 19
  {
    assert Pow10(19) == 10_000_000_000_000_000_000 by { Pow10Values(); }
    DecimalLength(n, 19);
  }

  lemma Pow10Values()
    ensures Pow10(19) == 10_000_000_000_000_000_000
  {
    assert Pow10(4) == 10_000;
    assert Pow10(8) == 100_000_000;
    assert Pow10(12) == 1_000_000_000_000;
    assert Pow10(16) == 10_000_000_000_000_000;
  }

  /** The bytes of a header: the name, one space, the size in decimal without leading zeros, one newline. */
  predicate HeaderSays(header: string, name: string, size: nat) {
    var n, last := |name|, |header| - 1;
    && n + 2 < |header| && header[..n] == name && header[n] as int == 32 && header[last] as int == 10
    && Digits(header[n + 1..last]) && Value(header[n + 1..last]) == size
    && (header[n + 1] as int == 48 ==> size == 0 && last == n + 2)
  }

  lemma HeaderIsText(f: File)
    requires f.content.Some?
    ensures HeaderSays(Header(f), f.name, |f.content.value|)
  {
    var size := |f.content.value|;
    var digits := Decimal(size);
    var h := Header(f);
    DecimalIsValue(size);
    assert h == f.name + " " + digits + "\n";
    assert h[|f.name| + 1..|h| - 1] == digits && h[|f.name| + 1] == digits[0];
  }

  lemma HeaderFits(f: File)
    requires Sendable(f) && f.content.Some?
    ensures |Header(f)| < HEADER_SIZE && |Line(f)| < HEADER_MAX && OneLine(Line(f)) && Line(f) != "END"
  {
    LongDigits(|f.content.value|);
    assert Line(f)[|f.name|] == ' ';
  }

  lemma HeaderParses(f: File)
    requires Sendable(f) && f.content.Some?
    ensures ParseHeader(Line(f)) == Some((f.name, |f.content.value|))
  {
    hide ScanDigits, Pow10, Value;
    var size := |f.content.value|;
    var digits := Decimal(size);
    var rest := " " + digits;
    assert Line(f) == f.name + rest;
    ScanWordOf(f.name, rest);
    assert rest[1..] == digits;
    assert SkipSpace(rest) == SkipSpace(digits) == digits;
    ScanIntOf(size, "");
    assert digits + "" == digits;
    assert ScanInt(rest) == ScanInt(digits);
  }

  /** A header fits the parent's buffer and is never cut by the child; it is one line, is not the
      end mark, and `sscanf` reads back the name and the size. */
  lemma HeaderRoundTrip(f: File)
    requires Sendable(f) && f.content.Some?
    ensures |Header(f)| < HEADER_SIZE && |Line(f)| < HEADER_MAX && OneLine(Line(f)) && Line(f) != "END"
    ensures ParseHeader(Line(f)) == Some((f.name, |f.content.value|))
    ensures HeaderSays(Header(f), f.name, |f.content.value|)
  {
    hide Header, Line, ParseHeader, HeaderSays, OneLine;
    HeaderFits(f);
    HeaderParses(f);
    HeaderIsText(f);
  }

  // ---------- the invariant ----------

  ghost predicate AllOpen(files: seq<File>) {
    forall f :: f in files ==> f.content.Some? && Sendable(f)
  }

  lemma {:induction false} OpenableStep(files: seq<File>, i: nat)
    requires i < |files|
    ensures files[i..] == [files[i]] + files[i + 1..]
    ensures Openable(files[i..]) ==
      if files[i].content.Some? then [files[i]] + Openable(files[i + 1..]) else Openable(files[i + 1..])
  {
    assert files[i..][1..] == files[i + 1..];
  }

  /** What the parent has still to write. */
  ghost function ParentRest(files: seq<File>, pc: ParentPc): string {
    match pc
    case PAwaitReady => Stream(Openable(files))
    case PNext(i) => if i <= |files| then Stream(Openable(files[i..])) else ""
    case PBody(i, off) =>
      if i < |files| && files[i].content.Some? && off <= |files[i].content.value|
      then files[i].content.value[off..] + Stream(Openable(files[i + 1..]))
      else ""
    case PEnd => END
    case PDone => ""
  }

  ghost predicate ParentOk(files: seq<File>, pc: ParentPc) {
    match pc
    case PNext(i) => i <= |files|
    case PBody(i, off) => i < |files| && files[i].content.Some? && off <= |files[i].content.value|
    case _ => true
  }

  /** What the child knows: its outputs are the first `|outputs|` files of `open`, and what it has
      read of the current header or file, followed by what is still to come, is the rest of the stream. */
  ghost predicate ChildOk(open: seq<File>, child: ChildPc, k: nat, rest: string)
    requires AllOpen(open)
  {
    && k <= |open|
    && match child
       case CReady => k == 0 && rest == Stream(open)
       case CHeader(h) => OneLine(h) && h + rest == Stream(open[k..])
       case CParse(h) =>
         if k == |open| then h == "END" && rest == ""
         else h == Line(open[k]) && rest == open[k].content.value + Stream(open[k + 1..])
       case CBody(name, remaining, written) =>
         && k < |open| && name == Copy(open[k]).name
         && 0 <= remaining <= |rest| && written + rest[..remaining] == open[k].content.value
         && rest[remaining..] == Stream(open[k + 1..])
       case CDone => k == |open| && rest == ""
       case CGarbled => false
  }

  ghost predicate Inv(files: seq<File>, s: State) {
    var open := Openable(files);
    && AllOpen(open) && ParentOk(files, s.parent)
    && ChildOk(open, s.child, |s.outputs|, s.pipe + ParentRest(files, s.parent))
    && s.outputs == Expected(files)[..|s.outputs|]
    && (s.child.CReady? ==> s.ready == "" && s.parent.PAwaitReady?)
    && (s.parent.PAwaitReady? && !s.child.CReady? ==> s.ready != "")
  }

  lemma OpenableSendable(files: seq<File>)
    requires forall f :: f in files ==> Sendable(f)
    ensures AllOpen(Openable(files))
  {
  }

  lemma OpenSendable(open: seq<File>, k: nat)
    requires AllOpen(open) && k < |open|
    ensures open[k].content.Some? && Sendable(open[k])
  {
  }

  lemma StreamStep(open: seq<File>, k: nat)
    requires AllOpen(open) && k <= |open|
    ensures k == |open| ==> Stream(open[k..]) == END == "END" + "\n" + ""
    ensures k < |open| ==>
      Stream(open[k..]) == Line(open[k]) + "\n" + (open[k].content.value + Stream(open[k + 1..]))
  {
    if k < |open| {
      assert open[k..][0] == open[k] && open[k..][1..] == open[k + 1..];
    }
  }

  // ---------- the steps ----------

  lemma NextRest(files: seq<File>, i: nat)
    requires i <= |files|
    ensures i == |files| ==> Stream(Openable(files[i..])) == END
    ensures i < |files| && files[i].content.None? ==> Openable(files[i..]) == Openable(files[i + 1..])
    ensures i < |files| && files[i].content.Some? ==>
      Stream(Openable(files[i..])) == Header(files[i]) + (files[i].content.value + Stream(Openable(files[i + 1..])))
  {
    hide Openable, Stream, Header;
    if i == |files| {
      NoneLeft(files);
    } else {
      OpenableStep(files, i);
      if files[i].content.Some? {
        StreamCons(files[i], Openable(files[i + 1..]));
      }
    }
  }

  lemma NoneLeft(files: seq<File>)
    ensures Stream(Openable(files[|files|..])) == END
  {
  }

  lemma StreamCons(f: File, open: seq<File>)
    requires f.content.Some? && forall g :: g in open ==> g.content.Some?
    ensures Stream([f] + open) == Header(f) + (f.content.value + Stream(open))
  {
    hide Header;
    assert ([f] + open)[1..] == open;
  }

  /** A write moves bytes from what is still to be written into the pipe, or waits. */
  lemma WriteMoves(files: seq<File>, s: State, w: string, next: ParentPc)
    requires ParentRest(files, s.parent) == w + ParentRest(files, next)
    ensures var t := Written(s, w, next);
      t.pipe + ParentRest(files, t.parent) == s.pipe + ParentRest(files, s.parent)
  {
    hide ParentRest;
  }

  /** The parent writes a header, or finds a file it cannot open, or the end of its list. */
  lemma NextKeeps(files: seq<File>, s: State, choice: nat)
    requires s.parent.PNext? && s.parent.i <= |files|
    ensures var t := ParentStep(files, s, choice);
      && ParentOk(files, t.parent)
      && t.pipe + ParentRest(files, t.parent) == s.pipe + ParentRest(files, s.parent)
  {
    hide Stream, Openable, Header, Written;
    var i := s.parent.i;
    NextRest(files, i);
    if i < |files| && files[i].content.Some? {
      var content := files[i].content.value;
      assert content[0..] == content;
      WriteMoves(files, s, Header(files[i]), PBody(i, 0));
      WrittenPc(s, Header(files[i]), PBody(i, 0));
    }
  }

  lemma WrittenPc(s: State, w: string, next: ParentPc)
    ensures Written(s, w, next).parent == s.parent || Written(s, w, next).parent == next
  {
  }

  /** The parent writes a chunk of a file, or finds its end. */
  lemma BodyKeeps(files: seq<File>, s: State, choice: nat)
    requires s.parent.PBody? && ParentOk(files, s.parent)
    ensures var t := ParentStep(files, s, choice);
      && ParentOk(files, t.parent)
      && t.pipe + ParentRest(files, t.parent) == s.pipe + ParentRest(files, s.parent)
  {
    hide Stream, Openable, Written, Amount, ParentRest;
    var i, off := s.parent.i, s.parent.off;
    var content := files[i].content.value;
    if off < |content| {
      var n := Amount(choice, AtMost(|content| - off, BUF_SIZE));
      ChunkRest(files, i, off, n);
      WriteMoves(files, s, content[off..off + n], PBody(i, off + n));
      WrittenPc(s, content[off..off + n], PBody(i, off + n));
    } else {
      FileDone(files, i);
    }
  }

  lemma ChunkRest(files: seq<File>, i: nat, off: nat, n: nat)
    requires i < |files| && files[i].content.Some? && off + n <= |files[i].content.value|
    ensures ParentRest(files, PBody(i, off))
         == files[i].content.value[off..off + n] + ParentRest(files, PBody(i, off + n))
  {
    hide Stream, Openable;
    SplitContent(files[i].content.value, off, n, Stream(Openable(files[i + 1..])));
  }

  lemma FileDone(files: seq<File>, i: nat)
    requires i < |files| && files[i].content.Some?
    ensures ParentRest(files, PBody(i, |files[i].content.value|)) == ParentRest(files, PNext(i + 1))
  {
    hide Stream, Openable;
    assert files[i].content.value[|files[i].content.value|..] == "";
  }

  lemma SplitContent(content: string, off: nat, n: nat, rest: string)
    requires off + n <= |content|
    ensures content[off..] + rest == content[off..off + n] + (content[off + n..] + rest)
  {
    assert content[off..] == content[off..off + n] + content[off + n..];
  }

  /** The parent moves bytes from what it has to write into the pipe and changes nothing else. */
  lemma ParentKeeps(files: seq<File>, s: State, choice: nat)
    requires ParentOk(files, s.parent)
    ensures var t := ParentStep(files, s, choice);
      && ParentOk(files, t.parent)
      && t.pipe + ParentRest(files, t.parent) == s.pipe + ParentRest(files, s.parent)
  {
    hide Stream, Openable, Header, Written;
    match s.parent
    case PAwaitReady =>
      assert files[0..] == files;
    case PNext(_) =>
      NextKeeps(files, s, choice);
    case PBody(_, _) =>
      BodyKeeps(files, s, choice);
    case PEnd =>
      assert END == END + "";
      WriteMoves(files, s, END, PDone);
      WrittenPc(s, END, PDone);
    case PDone =>
  }

  /** One more byte of a header, or its end. */
  lemma HeaderByte(open: seq<File>, h: string, k: nat, rest: string)
    requires AllOpen(open) && ChildOk(open, CHeader(h), k, rest)
    ensures rest != "" && |h| < HEADER_MAX
    ensures ChildOk(open, if rest[0] != '\n' then CHeader(h + [rest[0]]) else CParse(h), k, rest[1..])
  {
    hide Stream, Line, Header, ParseHeader, Sendable, OneLine;
    StreamStep(open, k);
    if k < |open| {
      OpenSendable(open, k);
      HeaderRoundTrip(open[k]);
      FirstLine(h, rest, Line(open[k]), open[k].content.value + Stream(open[k + 1..]));
    } else {
      EndIsLine();
      FirstLine(h, rest, "END", "");
    }
    ShiftByte(h, rest);
  }

  lemma EndIsLine()
    ensures OneLine("END")
  {
  }

  lemma ShiftByte(h: string, rest: string)
    requires rest != "" && OneLine(h)
    ensures h + rest == (h + [rest[0]]) + rest[1..]
    ensures rest[0] != '\n' ==> OneLine(h + [rest[0]])
  {
  }

  /** The header names the next file, or the end. */
  lemma HeaderParsed(open: seq<File>, h: string, k: nat, rest: string)
    requires AllOpen(open) && ChildOk(open, CParse(h), k, rest)
    ensures h == "END" ==> ChildOk(open, CDone, k, rest)
    ensures h != "END" ==>
      && ParseHeader(h).Some?
      && ChildOk(open, CBody(ParseHeader(h).value.0 + ".copy", ParseHeader(h).value.1, ""), k, rest)
  {
    if k < |open| {
      HeaderRoundTrip(open[k]);
      var content := open[k].content.value;
      assert "" + rest[..|content|] == content;
    }
  }

  /** A chunk of the body, of any size. */
  lemma BodyChunk(open: seq<File>, name: string, remaining: int, written: string, k: nat, rest: string, n: nat)
    requires AllOpen(open) && ChildOk(open, CBody(name, remaining, written), k, rest) && n <= remaining
    ensures ChildOk(open, CBody(name, remaining - n, written + rest[..n]), k, rest[n..])
  {
    var m := remaining - n;
    assert rest[..remaining] == rest[..n] + rest[n..][..m];
    assert rest[n..][m..] == rest[remaining..];
    assert written + rest[..remaining] == (written + rest[..n]) + rest[n..][..m];
  }

  lemma BodyDone(open: seq<File>, name: string, written: string, k: nat, rest: string)
    requires AllOpen(open) && ChildOk(open, CBody(name, 0, written), k, rest)
    ensures Output(name, written) == Copy(open[k]) && ChildOk(open, CHeader(""), k + 1, rest)
  {
    assert written + rest[..0] == written;
    assert rest[0..] == rest && "" + rest == rest;
  }

  /** One statement of the child, whatever the parent is still to send after what is in the pipe. */
  lemma ChildMoves(open: seq<File>, s: State, future: string, choice: nat)
    requires AllOpen(open) && ChildOk(open, s.child, |s.outputs|, s.pipe + future)
    ensures var t := ChildStep(s, choice);
      && ChildOk(open, t.child, |t.outputs|, t.pipe + future)
      && (t.outputs == s.outputs || (|s.outputs| < |open| && t.outputs == s.outputs + [Copy(open[|s.outputs|])]))
  {
    hide ChildOk, ParseHeader, AllOpen;
    var k := |s.outputs|;
    var rest := s.pipe + future;
    match s.child
    case CReady =>
      ChildStarts(open, k, rest);
    case CHeader(h) =>
      if s.pipe != "" {
        HeaderByte(open, h, k, rest);
        assert rest[1..] == s.pipe[1..] + future;
      }
    case CParse(h) =>
      HeaderParsed(open, h, k, rest);
    case CBody(name, remaining, written) =>
      BodyBounds(open, name, remaining, written, k, rest);
      if remaining == 0 {
        BodyDone(open, name, written, k, rest);
      } else if s.pipe != "" {
        var n := Amount(choice, AtMost(AtMost(remaining, BUF_SIZE), |s.pipe|));
        BodyChunk(open, name, remaining, written, k, rest, n);
        assert rest[..n] == s.pipe[..n] && rest[n..] == s.pipe[n..] + future;
      }
    case CDone =>
    case CGarbled =>
  }

  /** The child never touches the parent, and says READY once. */
  lemma ChildApart(s: State, choice: nat)
    ensures var t := ChildStep(s, choice);
      && t.parent == s.parent && !t.child.CReady?
      && t.ready == (if s.child.CReady? then s.ready + READY else s.ready)
  {
  }

  lemma ExpectedPrefix(files: seq<File>, k: nat)
    ensures |Expected(files)| == |Openable(files)|
    ensures k < |Openable(files)| ==>
      Expected(files)[..k + 1] == Expected(files)[..k] + [Copy(Openable(files)[k])]
  {
    hide Openable, Copy;
    var e := Expected(files);
    if k < |e| {
      assert e[..k + 1] == e[..k] + [e[k]];
    }
  }

  lemma ChildKeeps(files: seq<File>, s: State, choice: nat)
    requires Inv(files, s)
    ensures Inv(files, ChildStep(s, choice))
  {
    hide ChildOk, ParentRest, ChildStep, Openable, Expected, AllOpen, ParentOk;
    ChildMoves(Openable(files), s, ParentRest(files, s.parent), choice);
    ChildApart(s, choice);
    ExpectedPrefix(files, |s.outputs|);
  }

  lemma ChildStarts(open: seq<File>, k: nat, rest: string)
    requires AllOpen(open) && ChildOk(open, CReady, k, rest)
    ensures ChildOk(open, CHeader(""), k, rest)
  {
    assert open[0..] == open && "" + rest == rest;
  }

  lemma BodyBounds(open: seq<File>, name: string, remaining: int, written: string, k: nat, rest: string)
    requires AllOpen(open) && ChildOk(open, CBody(name, remaining, written), k, rest)
    ensures 0 <= remaining && k < |open|
  {
  }

  lemma StartInv(files: seq<File>, capacity: nat)
    requires forall f :: f in files ==> Sendable(f)
    ensures Inv(files, Start(capacity))
  {
    hide Stream;
    OpenableSendable(files);
    assert "" + Stream(Openable(files)) == Stream(Openable(files));
  }

  /** The parent never touches the child, and reads READY once. */
  lemma ParentApart(files: seq<File>, s: State, choice: nat)
    ensures var t := ParentStep(files, s, choice);
      && t.child == s.child && t.outputs == s.outputs
      && (t.ready == s.ready || (s.parent.PAwaitReady? && s.ready != ""))
      && (t.parent.PAwaitReady? ==> s.parent.PAwaitReady? && t.ready == s.ready)
      && (s.parent.PAwaitReady? && s.ready == "" ==> t == s)
  {
    hide Header, Amount;
  }

  lemma ParentKeepsInv(files: seq<File>, s: State, choice: nat)
    requires Inv(files, s)
    ensures Inv(files, ParentStep(files, s, choice))
  {
    hide ChildOk, ParentRest, ParentStep, Openable, Expected, AllOpen, ParentOk;
    ParentKeeps(files, s, choice);
    ParentApart(files, s, choice);
  }

  lemma {:induction false} RunInv(files: seq<File>, capacity: nat, schedule: seq<Choice>)
    requires forall f :: f in files ==> Sendable(f)
    ensures Inv(files, Run(files, capacity, schedule))
  {
    hide Inv, ParentStep, ChildStep, Sendable;
    if schedule == [] {
      StartInv(files, capacity);
    } else {
      var s := Run(files, capacity, schedule[..|schedule| - 1]);
      var c := schedule[|schedule| - 1];
      RunInv(files, capacity, schedule[..|schedule| - 1]);
      if c.parentMoves {
        ParentKeepsInv(files, s, c.amount);
      } else {
        ChildKeeps(files, s, c.amount);
      }
    }
  }

  // ---------- the results ----------

  /** Under every schedule the files written are the first ones that could be opened, unchanged and in
      order, the child never misreads a header, and when it stops it has written all of them. */
  lemma ChildWritesWhatParentSent(files: seq<File>, capacity: nat, schedule: seq<Choice>)
    requires forall f :: f in files ==> Sendable(f)
    ensures var s := Run(files, capacity, schedule);
      && s.outputs <= Expected(files)
      && !s.child.CGarbled?
      && (s.child.CDone? ==> s.outputs == Expected(files) && s.pipe == "")
    ensures var s, open := Run(files, capacity, schedule), Openable(files);
      && |s.outputs| <= |open|
      && forall i :: 0 <= i < |s.outputs| ==>
           s.outputs[i].name == open[i].name + ".copy" && s.outputs[i].content == open[i].content.value
  {
    RunInv(files, capacity, schedule);
    var s := Run(files, capacity, schedule);
    assert |Expected(files)| == |Openable(files)|;
  }

  // ---------- the transfer ends ----------

  /** The statements the parent has still to run for these files, at most. */
  ghost function Reads(files: seq<File>): nat {
    if files == [] then 0
    else 2 + (if files[0].content.Some? then |files[0].content.value| else 0) + Reads(files[1..])
  }

  ghost function ParentLeft(files: seq<File>, pc: ParentPc): nat {
    match pc
    case PAwaitReady => Reads(files) + 3
    case PNext(i) => if i <= |files| then Reads(files[i..]) + 2 else 0
    case PBody(i, off) =>
      if i < |files| && files[i].content.Some? && off <= |files[i].content.value|
      then |files[i].content.value| - off + 3 + Reads(files[i + 1..])
      else 0
    case PEnd => 1
    case PDone => 0
  }

  ghost function ChildRank(child: ChildPc): nat {
    match child
    case CReady => 1
    case CParse(_) => 2
    case CBody(_, _, _) => 1
    case _ => 0
  }

  /** A bound on the statements both sides have still to run; every byte counts for the child. */
  ghost function Work(files: seq<File>, s: State): nat {
    ParentLeft(files, s.parent) + 3 * |s.pipe + ParentRest(files, s.parent)| + ChildRank(s.child)
  }

  lemma ParentStepWorks(files: seq<File>, s: State, choice: nat)
    requires ParentOk(files, s.parent) && ParentStep(files, s, choice) != s
    ensures ParentLeft(files, ParentStep(files, s, choice).parent) < ParentLeft(files, s.parent)
    ensures ParentStep(files, s, choice).child == s.child
  {
    hide Header, Amount;
    match s.parent
    case PAwaitReady =>
      assert files[0..] == files;
    case PNext(i) =>
      if i < |files| {
        assert files[i..][1..] == files[i + 1..];
      }
    case _ =>
  }

  lemma ChildStepWorks(s: State, choice: nat)
    requires ChildStep(s, choice) != s
    ensures var t := ChildStep(s, choice); 3 * |t.pipe| + ChildRank(t.child) < 3 * |s.pipe| + ChildRank(s.child)
  {
  }

  lemma StepWorks(files: seq<File>, s: State, c: Choice)
    requires Inv(files, s) && Step(files, s, c) != s
    ensures Work(files, Step(files, s, c)) < Work(files, s)
  {
    hide ParentRest, ParentLeft, ChildRank, ParentStep, ChildStep, ChildOk, AllOpen;
    if c.parentMoves {
      ParentKeeps(files, s, c.amount);
      ParentStepWorks(files, s, c.amount);
    } else {
      ChildApart(s, c.amount);
      ChildStepWorks(s, c.amount);
    }
  }

  /** The child is never left waiting for bytes that will not come. */
  lemma ChildCanWait(files: seq<File>, s: State)
    requires Inv(files, s) && ChildStep(s, 0) == s
    ensures s.child.CDone? || (s.pipe == "" && ParentRest(files, s.parent) != "" && !s.child.CReady?)
  {
    var open, k := Openable(files), |s.outputs|;
    var rest := s.pipe + ParentRest(files, s.parent);
    match s.child
    case CHeader(h) => HeaderByte(open, h, k, rest);
    case CParse(h) => HeaderParsed(open, h, k, rest);
    case CBody(name, remaining, written) => BodyBounds(open, name, remaining, written, k, rest);
    case _ =>
  }

  lemma {:induction false} OpenableHas(files: seq<File>, i: nat)
    requires i < |files| && files[i].content.Some?
    ensures files[i] in Openable(files)
  {
    if i > 0 {
      OpenableHas(files[1..], i - 1);
    }
  }

  /** An empty pipe has room for whatever the parent writes next. */
  lemma ParentCanWrite(files: seq<File>, s: State)
    requires AllOpen(Openable(files)) && s.pipe == "" && s.capacity >= BUF_SIZE
    requires ParentOk(files, s.parent) && !s.parent.PAwaitReady? && !s.parent.PDone?
    ensures ParentStep(files, s, 0) != s
  {
    hide Header, Openable;
    if s.parent.PNext? && s.parent.i < |files| && files[s.parent.i].content.Some? {
      OpenableHas(files, s.parent.i);
      HeaderRoundTrip(files[s.parent.i]);
    }
  }

  /** Until the child has stopped, one of the two can move: they never wait for each other, the parent for
      room in the pipe and the child for bytes. */
  lemma SomeoneCanMove(files: seq<File>, s: State) returns (c: Choice)
    requires Inv(files, s) && !s.child.CDone? && s.capacity >= 1024
    ensures Step(files, s, c) != s
  {
    hide ChildOk, AllOpen, Written, Openable;
    if ChildStep(s, 0) != s {
      c := Choice(false, 0);
    } else {
      c := Choice(true, 0);
      ChildCanWait(files, s);
      if !s.parent.PAwaitReady? {
        ParentCanWrite(files, s);
      }
    }
  }

  lemma {:induction false} CapacityStays(files: seq<File>, capacity: nat, schedule: seq<Choice>)
    ensures Run(files, capacity, schedule).capacity == capacity && |Run(files, capacity, schedule).pipe| <= capacity
  {
    if schedule != [] {
      CapacityStays(files, capacity, schedule[..|schedule| - 1]);
    }
  }

  /** How many choices of a schedule moved one of the sides. */
  ghost function Moves(files: seq<File>, capacity: nat, schedule: seq<Choice>): nat {
    if schedule == [] then 0
    else
      var init := schedule[..|schedule| - 1];
      Moves(files, capacity, init) + (if Run(files, capacity, schedule) != Run(files, capacity, init) then 1 else 0)
  }

  /** No schedule can keep the two sides moving for ever. */
  lemma {:induction false} TransferIsBounded(files: seq<File>, capacity: nat, schedule: seq<Choice>)
    requires forall f :: f in files ==> Sendable(f)
    ensures Moves(files, capacity, schedule) + Work(files, Run(files, capacity, schedule))
         <= Work(files, Start(capacity))
  {
    if schedule != [] {
      hide Inv, Work, Step;
      var init := schedule[..|schedule| - 1];
      TransferIsBounded(files, capacity, init);
      RunInv(files, capacity, init);
      if Run(files, capacity, schedule) != Run(files, capacity, init) {
        StepWorks(files, Run(files, capacity, init), schedule[|schedule| - 1]);
      }
    }
  }

  lemma RunStep(files: seq<File>, capacity: nat, schedule: seq<Choice>, c: Choice)
    ensures Run(files, capacity, schedule + [c]) == Step(files, Run(files, capacity, schedule), c)
  {
    assert (schedule + [c])[..|schedule|] == schedule;
  }

  /** With a pipe that holds a chunk, from every reachable state the transfer can be finished, and then
      everything has been copied. */
  lemma {:induction false} TransferCanFinish(files: seq<File>, capacity: nat, schedule: seq<Choice>)
    returns (more: seq<Choice>)
    requires (forall f :: f in files ==> Sendable(f)) && capacity >= 1024
    ensures var t := Run(files, capacity, schedule + more); t.child.CDone? && t.outputs == Expected(files)
    decreases Work(files, Run(files, capacity, schedule))
  {
    hide Run, Inv, Work, Step, Expected, Sendable;
    var s := Run(files, capacity, schedule);
    RunInv(files, capacity, schedule);
    CapacityStays(files, capacity, schedule);
    ChildWritesWhatParentSent(files, capacity, schedule);
    if s.child.CDone? {
      more := [];
      assert schedule + more == schedule;
    } else {
      var c := SomeoneCanMove(files, s);
      StepWorks(files, s, c);
      RunStep(files, capacity, schedule, c);
      var rest := TransferCanFinish(files, capacity, schedule + [c]);
      more := [c] + rest;
      assert schedule + more == schedule + [c] + rest;
    }
  }

  // ---------- which files can be copied ----------

  /** The files that can be opened are picked one by one, in order. */
  lemma {:induction false} OpenableOf(a: seq<File>, b: seq<File>, f: File)
    ensures Openable(a + b) == Openable(a) + Openable(b)
    ensures Openable([f]) == (if f.content.Some? then [f] else []) && Openable([]) == []
  {
    assert [f][1..] == [];
    if a == [] {
      assert a + b == b;
    } else {
      assert (a + b)[0] == a[0] && (a + b)[1..] == a[1..] + b;
      OpenableOf(a[1..], b, f);
    }
  }

  /** A header can only give back a name that is not empty, has no white space and is shorter than 256 bytes. */
  lemma ParsedName(h: string)
    ensures ParseHeader(h).Some? ==>
      var name := ParseHeader(h).value.0; name != "" && NoSpace(name) && |name| < NAME_SIZE
  {
    hide ScanInt;
    var t := SkipSpace(h);
    var n := WordLength(t);
    assert t[..n] == "" <==> n == 0;
  }

  /** The header of a file is read back if and only if its name is such a name. */
  lemma HeaderIsExact(f: File)
    requires f.content.Some? && |f.content.value| <= LONG_MAX
    ensures ParseHeader(Line(f)) == Some((f.name, |f.content.value|)) <==> Sendable(f)
  {
    hide ParseHeader;
    ParsedName(Line(f));
    if Sendable(f) {
      HeaderRoundTrip(f);
    }
  }

  /** Every file the child writes, or has begun to, is named after what a header can give. */
  ghost predicate Nameable(outname: string) {
    exists name :: name != "" && NoSpace(name) && |name| < NAME_SIZE && outname == name + ".copy"
  }

  ghost predicate NamesOk(s: State) {
    && (forall o :: o in s.outputs ==> Nameable(o.name))
    && (s.child.CBody? ==> Nameable(s.child.name))
  }

  lemma ChildNames(s: State, choice: nat)
    requires NamesOk(s)
    ensures NamesOk(ChildStep(s, choice))
  {
    hide ParseHeader, Nameable;
    if s.child.CParse? {
      ParsedName(s.child.header);
      ParsedIsNameable(s.child.header);
    }
  }

  lemma ParsedIsNameable(h: string)
    ensures ParseHeader(h).Some? ==> Nameable(ParseHeader(h).value.0 + ".copy")
  {
    hide ParseHeader;
    ParsedName(h);
  }

  lemma {:induction false} RunNames(files: seq<File>, capacity: nat, schedule: seq<Choice>)
    ensures NamesOk(Run(files, capacity, schedule))
  {
    hide NamesOk, ParentStep, ChildStep;
    if schedule == [] {
      StartNames(capacity);
    } else {
      var s := Run(files, capacity, schedule[..|schedule| - 1]);
      var c := schedule[|schedule| - 1];
      RunNames(files, capacity, schedule[..|schedule| - 1]);
      if c.parentMoves {
        ParentNames(files, s, c.amount);
      } else {
        ChildNames(s, c.amount);
      }
    }
  }

  lemma StartNames(capacity: nat)
    ensures NamesOk(Start(capacity))
  {
  }

  lemma ParentNames(files: seq<File>, s: State, choice: nat)
    requires NamesOk(s)
    ensures NamesOk(ParentStep(files, s, choice))
  {
    hide Nameable, Header, Amount;
  }

  lemma NameableFile(f: File)
    requires f.content.Some? && |f.content.value| <= LONG_MAX && Nameable(Copy(f).name)
    ensures Sendable(f)
  {
    var name :| name != "" && NoSpace(name) && |name| < NAME_SIZE && f.name + ".copy" == name + ".copy";
    assert f.name == (f.name + ".copy")[..|f.name|] == name;
  }

  /** If some run copies every file that can be opened, all their names are such names: for any other name
      the copy is missing, named differently, or never finished. */
  lemma CopiedIsSendable(files: seq<File>, capacity: nat, schedule: seq<Choice>)
    requires forall f :: f in files && f.content.Some? ==> |f.content.value| <= LONG_MAX
    requires Run(files, capacity, schedule).outputs == Expected(files)
    ensures forall f :: f in files ==> Sendable(f)
  {
    hide Run, Nameable, Sendable;
    RunNames(files, capacity, schedule);
    var open := Openable(files);
    forall f | f in files ensures Sendable(f) {
      if f.content.Some? {
        var i :| 0 <= i < |files| && files[i] == f;
        OpenableHas(files, i);
        var k :| 0 <= k < |open| && open[k] == f;
        assert Expected(files)[k] == Copy(f);
        NameableFile(f);
      } else {
        UnopenedIsSendable(f);
      }
    }
  }

  lemma UnopenedIsSendable(f: File)
    requires f.content.None?
    ensures Sendable(f)
  {
  }

  /** 1 to 255 bytes, none of them a space or one of the control characters 9 to 13. */
  predicate NameBytes(name: string) {
    && 1 <= |name| <= 255
    && forall i :: 0 <= i < |name| ==> var b := name[i] as int; b != 32 && !(9 <= b <= 13)
  }

  /** The transfer can copy every file that can be opened, in order and to the last, if and only if each of
      these files has a name that is not empty, has no white space and is shorter than 256 bytes. */
  lemma CopiesExactly(files: seq<File>, capacity: nat)
    requires capacity >= 1024
    requires forall f :: f in files && f.content.Some? ==> |f.content.value| <= LONG_MAX
    ensures (exists schedule :: Run(files, capacity, schedule).outputs == Expected(files))
      <==> forall f :: f in files && f.content.Some? ==> NameBytes(f.name)
  {
    hide Run, Expected;
    if schedule :| Run(files, capacity, schedule).outputs == Expected(files) {
      CopiedIsSendable(files, capacity, schedule);
    }
    if forall f :: f in files && f.content.Some? ==> NameBytes(f.name) {
      assert forall f :: f in files ==> Sendable(f);
      var more := TransferCanFinish(files, capacity, []);
      assert Run(files, capacity, [] + more).outputs == Expected(files);
    }
  }
}
