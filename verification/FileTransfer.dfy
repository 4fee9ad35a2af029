/** The file transfer over a pipe: a parent that writes headers and file contents in chunks, a child
    that reads them back in chunks of its own, and the two pipes between them. */
module FileTransfer {
  import opened Text

  const BUF_SIZE := 1024
  const HEADER_SIZE := 512  // the buffer both sides build a header line in
  const HEADER_MAX := 510  // the child stops reading a header here
  const NAME_SIZE := 256  // the child's buffer for a file name
  const LONG_MAX := 0x7fff_ffff_ffff_ffff

  /** A file named on the command line; `content` is None if it cannot be opened. */
  datatype File = File(name: CString, content: Option<string>)

  /** A file the child has written. */
  datatype Output = Output(name: string, content: string)

  /** The parent's program counter; `i` is the loop variable, `off` how far it has read file `i`. */
  datatype ParentPc = PAwaitReady | PNext(i: nat) | PBody(i: nat, off: nat) | PEnd | PDone

  /** The child's program counter with its locals. `CGarbled` is reached when `sscanf` leaves a
      variable unset or writes past `fname`. */
  datatype ChildPc =
    | CReady
    | CHeader(header: string)
    | CParse(header: string)
    | CBody(name: string, remaining: int, written: string)
    | CDone
    | CGarbled

  /** `pipe` carries data to the child and holds at most `capacity` bytes; `ready` carries the child's one
      message back. */
  datatype State = State(
    parent: ParentPc, child: ChildPc, pipe: string, capacity: nat, ready: string, outputs: seq<Output>)

  const READY: string := "READY\n"
  const END: string := "END\n"

  function Line(f: File): string
    requires f.content.Some?
  {
    f.name + " " + Decimal(|f.content.value|)
  }

  function Header(f: File): string
    requires f.content.Some?
  {
    Line(f) + "\n"
  }

  /** A transfer size between 1 and `max`, as the schedule likes. */
  function Amount(choice: nat, max: nat): (n: nat)
    requires max > 0
    ensures 1 <= n <= max
  {
    1 + choice % max
  }

  function AtMost(a: nat, b: nat): (m: nat)
    ensures m <= a && m <= b && (m == a || m == b)
  {
    if a <= b then a else b
  }

  // ---------- the steps ----------

  /** The parent writes `w` and goes on at `next`. It waits while the pipe has no room: writes this short,
      at most 1024 bytes, are not split. */
  function Written(s: State, w: string, next: ParentPc): State {
    if |s.pipe| + |w| <= s.capacity then s.(parent := next, pipe := s.pipe + w) else s
  }

  /** The parent's loop; a read of the file gives `choice`-many bytes, up to the buffer. */
  function ParentStep(files: seq<File>, s: State, choice: nat): State {
    match s.parent
    case PAwaitReady => if s.ready == "" then s else s.(parent := PNext(0), ready := "")
    case PNext(i) =>
      if i >= |files| then s.(parent := PEnd)
      else if files[i].content.None? then s.(parent := PNext(i + 1))
      else Written(s, Header(files[i]), PBody(i, 0))
    case PBody(i, off) =>
      if i >= |files| || files[i].content.None? || off >= |files[i].content.value| then s.(parent := PNext(i + 1))
      else
        var content := files[i].content.value;
        var n := Amount(choice, AtMost(|content| - off, BUF_SIZE));
        Written(s, content[off..off + n], PBody(i, off + n))
    case PEnd => Written(s, END, PDone)
    case PDone => s
  }

  /** What `sscanf(header, "%s %ld", fname, &fsize)` makes of a header. */
  function ParseHeader(header: string): Option<(string, int)> {
    match ScanWord(header)
    case None => None
    case Some((name, rest)) =>
      match ScanInt(rest)
      case None => None
      case Some((size, _)) => if |name| < NAME_SIZE then Some((name, size)) else None
  }

  /** The child's loop; a read of the pipe gives `choice`-many of the bytes that are there, up to what
      was asked for, and waits while there are none. */
  function ChildStep(s: State, choice: nat): State {
    match s.child
    case CReady => s.(child := CHeader(""), ready := s.ready + READY)
    case CHeader(h) =>
      if s.pipe == "" then s
      else
        var c := s.pipe[0];
        s.(pipe := s.pipe[1..],
           child := if c != '\n' && |h| < HEADER_MAX then CHeader(h + [c]) else CParse(h))
    case CParse(h) =>
      if h == "END" then s.(child := CDone)
      else
        (match ParseHeader(h)
         case None => s.(child := CGarbled)
         case Some((name, size)) => s.(child := CBody(name + ".copy", size, "")))
    case CBody(name, remaining, written) =>
      if remaining <= 0 then s.(child := CHeader(""), outputs := s.outputs + [Output(name, written)])
      else if s.pipe == "" then s
      else
        var n := Amount(choice, AtMost(AtMost(remaining, BUF_SIZE), |s.pipe|));
        s.(pipe := s.pipe[n..], child := CBody(name, remaining - n, written + s.pipe[..n]))
    case CDone => s
    case CGarbled => s
  }

  datatype Choice = Choice(parentMoves: bool, amount: nat)

  function Step(files: seq<File>, s: State, c: Choice): State {
    if c.parentMoves then ParentStep(files, s, c.amount) else ChildStep(s, c.amount)
  }

  function Start(capacity: nat): State {
    State(PAwaitReady, CReady, "", capacity, "", [])
  }

  function Run(files: seq<File>, capacity: nat, schedule: seq<Choice>): State {
    if schedule == [] then Start(capacity)
    else Step(files, Run(files, capacity, schedule[..|schedule| - 1]), schedule[|schedule| - 1])
  }

  // ---------- what should be sent and written ----------

  /** A file that can be opened has a name the protocol can carry and a size a `long` can hold. */
  ghost predicate Sendable(f: File) {
    f.content.Some? ==>
      f.name != [] && NoSpace(f.name) && |f.name| < NAME_SIZE && |f.content.value| <= LONG_MAX
  }

  function Openable(files: seq<File>): seq<File>
    ensures forall f :: f in Openable(files) ==> f in files && f.content.Some?
  {
    if files == [] then []
    else if files[0].content.Some? then [files[0]] + Openable(files[1..])
    else Openable(files[1..])
  }

  /** The bytes of the whole transfer of files that can all be opened. */
  function Stream(files: seq<File>): string
    requires forall f :: f in files ==> f.content.Some?
  {
    if files == [] then END
    else Header(files[0]) + files[0].content.value + Stream(files[1..])
  }

  function Copy(f: File): Output
    requires f.content.Some?
  {
    Output(f.name + ".copy", f.content.value)
  }

  /** What the child should write: one copy per openable file, in order. */
  function Expected(files: seq<File>): seq<Output> {
    var o := Openable(files);
    seq(|o|, i requires 0 <= i < |o| => assert o[i] in o; Copy(o[i]))
  }
}
