/** The script runner (player/src/sld/runner.c, context.c, call.c).

  The runner is a machine with an explicit stack of contexts that does a little at every
  call. The recursive interpreter below says what a script means: its entries one after
  the other, a call being the whole called script in place of the entry. The theorem is
  that the machine executes what the interpreter does, however its steps are interleaved
  with waiting.
*/
module Runner {
  import opened Bits

  type Name = seq<byte>

  type Positive = x: nat | 0 < x witness 1

  const HOVER: nat := 10000
  const REFUSED: word16 := 0xFFFF

  // What an entry of a script asks for; Other stands for drawing and playing.
  datatype Entry =
    | Blank | Label(name: Name) | Other | Wait | Query
    | Jump(target: Name) | JumpIf(value: word16, target: Name)
    | Call(script: Name, stored: bool)

  datatype Loaded = Loaded(entry: Entry, delayed: bool, length: Positive) | LoadError

  // A script is the entries that are found at its offsets.
  datatype Script = Script(size: nat, load: nat -> Loaded)

  type Library = map<Name, Script>

  // ----- What a script means -----

  // The offset after the first entry that is the label; the end if there is none.
  function GotoFrom(s: Script, offset: nat, target: Name): nat
    decreases if offset < s.size then s.size - offset else 0
  {
    if s.size <= offset then offset
    else
      match s.load(offset)
      case LoadError => offset
      case Loaded(entry, _, length) =>
        if entry == Label(target) then offset + length else GotoFrom(s, offset + length, target)
  }

  // The accumulator an entry ends with, where that comes from outside, and whether a call was let in.
  datatype Outcome = Outcome(acc: word16, entered: bool)

  datatype Executed = Executed(script: Name, offset: nat)

  // A script that came to its end, or one that still waits for the outcome of an entry.
  datatype Ran = Finished(trace: seq<Executed>, acc: word16, rest: seq<Outcome>) | Pending(trace: seq<Executed>)

  function Prepend(t: seq<Executed>, r: Ran): Ran { r.(trace := t + r.trace) }

  // The recursive interpreter.
  function Interpret(lib: Library, name: Name, offset: nat, acc: word16, outs: seq<Outcome>): (r: Ran)
    requires name in lib
    ensures r.Finished? ==> |r.rest| <= |outs|
    decreases |outs|
  {
    var s := lib[name];
    if s.size <= offset then Finished([], acc, outs)
    else if outs == [] || s.load(offset).LoadError? then Pending([])
    else
      var here, next, rest := [Executed(name, offset)], offset + s.load(offset).length, outs[1..];
      match s.load(offset).entry
      case Call(child, _) =>
        if outs[0].entered && child in lib then
          match Interpret(lib, child, 0, 0, rest)
          case Pending(t) => Pending(here + t)
          case Finished(t, a, rest') => Prepend(here + t, Interpret(lib, name, next, a, rest'))
        else Prepend(here, Interpret(lib, name, next, REFUSED, rest))
      case Jump(target) => Prepend(here, Interpret(lib, name, GotoFrom(s, 0, target), acc, rest))
      case JumpIf(value, target) =>
        Prepend(here, Interpret(lib, name, if acc == value then GotoFrom(s, 0, target) else next, acc, rest))
      case Wait => Prepend(here, Interpret(lib, name, next, outs[0].acc, rest))
      case Query => Prepend(here, Interpret(lib, name, next, outs[0].acc, rest))
      case _ => Prepend(here, Interpret(lib, name, next, acc, rest))
  }

  // ----- The machine -----

  datatype State = LOAD | EXECUTE | DELAY | WAIT | STOP | QUIT | ERROR

  datatype CallState = PREPARE | ENTER | DECODE

  // at is the offset the entry was loaded from; the delay of an entry stays for a blank one after it.
  datatype Frame = Frame(script: Name, offset: nat, state: State, entry: Entry, call: CallState, at: nat, delayed: bool)

  datatype Decoding = Working | Opened | Denied | Broken

  // What happens outside during one step: the keystroke and the tag under the pointer are zero if there is none;
  // a keystroke may only have changed the scale of the screen.
  datatype Input = Input(alive: bool, key: word16, zooms: bool, tag: word16, pressed: bool, elapsed: bool, done: bool,
                         failed: bool, answer: word16, plain: bool, decoding: Decoding)

  // The machine, with the record of the entries completed and of their outcomes. The top is first.
  datatype Machine = Machine(stack: seq<Frame>, acc: word16, trace: seq<Executed>, outcomes: seq<Outcome>)

  function WithTop(m: Machine, f: Frame): (r: Machine)
    requires m.stack != []
    ensures |r.stack| == |m.stack| && r.stack[0] == f && r.stack[1..] == m.stack[1..]
  {
    m.(stack := [f] + m.stack[1..])
  }

  // The top entry is completed: its script goes on at an offset.
  function Completed(m: Machine, offset: nat, acc: word16, entered: bool): (r: Machine)
    requires m.stack != []
    ensures |r.stack| == |m.stack| && r.stack[1..] == m.stack[1..]
  {
    var f := m.stack[0];
    WithTop(m, f.(state := LOAD, offset := offset)).(
      acc := acc, trace := m.trace + [Executed(f.script, f.at)], outcomes := m.outcomes + [Outcome(acc, entered)])
  }

  function StartFrame(name: Name): Frame { Frame(name, 0, LOAD, Blank, PREPARE, 0, false) }

  function WaitStep(m: Machine, i: Input): Machine
    requires m.stack != []
  {
    var f := m.stack[0];
    if i.key != 0 then if i.zooms then m else Completed(m, f.offset, i.key, false)
    else if i.tag != 0 then
      Completed(m, f.offset, if i.pressed then i.tag else (HOVER + i.tag) % 0x1_0000, false)
    else if HOVER < m.acc then Completed(m, f.offset, HOVER, false)
    else m
  }

  function LoadStep(lib: Library, m: Machine): Machine
    requires m.stack != [] && m.stack[0].script in lib
  {
    var f := m.stack[0];
    var s := lib[f.script];
    if s.size <= f.offset then WithTop(m, f.(state := STOP))
    else
      match s.load(f.offset)
      case LoadError => WithTop(m, f.(state := ERROR))
      case Loaded(entry, delayed, length) =>
        var wait := if entry == Blank then f.delayed else delayed;
        WithTop(m, f.(entry := entry, at := f.offset, offset := f.offset + length, call := PREPARE, delayed := wait,
                      state := if wait then DELAY else EXECUTE))
  }

  function CallStep(lib: Library, m: Machine, i: Input): Machine
    requires m.stack != [] && m.stack[0].entry.Call?
  {
    var f := m.stack[0];
    match f.call
    case PREPARE =>
      if f.entry.script !in lib || i.failed then WithTop(m, f.(state := ERROR))
      else WithTop(m, f.(call := if f.entry.stored || i.plain then ENTER else DECODE)).(acc := 0)
    case DECODE =>
      (match i.decoding
       case Working => m
       case Opened => WithTop(m, f.(call := ENTER))
       case Denied => Completed(m, f.offset, REFUSED, false)
       case Broken => WithTop(m, f.(state := ERROR)))
    case ENTER =>
      var m' := Completed(m, f.offset, m.acc, true);
      m'.(stack := [StartFrame(f.entry.script)] + m'.stack)
  }

  function ExecuteStep(lib: Library, m: Machine, i: Input): Machine
    requires m.stack != [] && m.stack[0].script in lib
  {
    var f := m.stack[0];
    match f.entry
    case Blank => Completed(m, f.offset, m.acc, false)
    case Label(_) => Completed(m, f.offset, m.acc, false)
    case Wait => WithTop(m, f.(state := WAIT))
    case Query => Completed(m, f.offset, i.answer, false)
    case Jump(target) => Completed(m, GotoFrom(lib[f.script], 0, target), m.acc, false)
    case JumpIf(value, target) =>
      Completed(m, if m.acc == value then GotoFrom(lib[f.script], 0, target) else f.offset, m.acc, false)
    case Call(_, _) => CallStep(lib, m, i)
    case Other =>
      if i.failed then WithTop(m, f.(state := ERROR)) else if i.done then Completed(m, f.offset, m.acc, false) else m
  }

  // One call of the handler. What a script does after an error of its own is not part of the model.
  function Step(lib: Library, m: Machine, i: Input): Machine
    requires m.stack != [] && m.stack[0].script in lib && m.stack[0].state != ERROR
  {
    var f := m.stack[0];
    if f.state != QUIT && !i.alive then WithTop(m, f.(state := QUIT))
    else
      match f.state
      case STOP => m.(stack := m.stack[1..])
      case QUIT =>
        var rest := m.stack[1..];
        m.(stack := if rest == [] then rest else [rest[0].(state := QUIT)] + rest[1..])
      case WAIT => WaitStep(m, i)
      case LOAD => LoadStep(lib, m)
      case DELAY => if i.elapsed then WithTop(m, f.(state := EXECUTE)) else m
      case EXECUTE => ExecuteStep(lib, m, i)
  }

  // The main loop goes on while the first script is neither stopped nor failed.
  predicate Running(m: Machine) {
    m.stack != [] && m.stack[|m.stack| - 1].state !in {STOP, QUIT, ERROR}
  }

  // ----- The invariant -----

  // Offsets that are found by loading entry after entry from the start.
  ghost predicate Boundary(s: Script, offset: nat)
    decreases offset
  {
    offset == 0
    || exists p: nat | p < offset ::
         p < s.size && s.load(p).Loaded? && p + s.load(p).length == offset && Boundary(s, p)
  }

  predicate IsPending(f: Frame) { f.state in {EXECUTE, DELAY, WAIT} }

  // Where the script of a frame stands: before an entry not completed, or behind the last one.
  function Stand(f: Frame): nat { if IsPending(f) then f.at else f.offset }

  ghost predicate FrameOk(lib: Library, f: Frame) {
    && f.script in lib
    && Boundary(lib[f.script], f.offset)
    && (IsPending(f) ==>
         && f.at < lib[f.script].size && lib[f.script].load(f.at).Loaded?
         && lib[f.script].load(f.at).entry == f.entry && f.offset == f.at + lib[f.script].load(f.at).length
         && Boundary(lib[f.script], f.at))
    && (f.state == STOP ==> lib[f.script].size <= f.offset)
    && (f.state == WAIT ==> f.entry == Wait)
  }

  // A call past its preparation found its script and cleared the accumulator; what is deciphered is not stored plainly.
  ghost predicate CallOk(lib: Library, f: Frame, acc: word16) {
    IsPending(f) && f.entry.Call? && f.call != PREPARE ==>
      f.entry.script in lib && acc == 0 && (f.call == DECODE ==> !f.entry.stored)
  }

  ghost predicate MachineOk(lib: Library, m: Machine) {
    && m.stack != []
    && (forall k | 0 <= k < |m.stack| :: FrameOk(lib, m.stack[k]))
    && (forall k | 1 <= k < |m.stack| :: m.stack[k].state == LOAD)
    && CallOk(lib, m.stack[0], m.acc)
  }

  // Neither an error nor the wish to quit.
  predicate Clean(m: Machine) {
    m.stack != [] && m.stack[0].state !in {QUIT, ERROR}
  }

  lemma StartBoundary(s: Script)
    ensures Boundary(s, 0)
  {
  }

  lemma NextBoundary(s: Script, offset: nat)
    requires offset < s.size && s.load(offset).Loaded? && Boundary(s, offset)
    ensures Boundary(s, offset + s.load(offset).length)
  {
  }

  // A jump ends behind an entry of its own script, whether the label is there or not.
  lemma {:induction false} GotoBoundary(s: Script, offset: nat, target: Name)
    requires Boundary(s, offset)
    ensures Boundary(s, GotoFrom(s, offset, target))
    decreases if offset < s.size then s.size - offset else 0
  {
    hide Boundary;
    if offset < s.size && s.load(offset).Loaded? {
      NextBoundary(s, offset);
      if s.load(offset).entry != Label(target) {
        GotoBoundary(s, offset + s.load(offset).length, target);
      }
    }
  }

  // Loading on from a boundary skips none: the next one is at least the length of its entry away.
  lemma {:induction false} BoundariesApart(s: Script, a: nat, b: nat)
    requires Boundary(s, a) && Boundary(s, b) && a < b
    ensures a < s.size && s.load(a).Loaded? && a + s.load(a).length <= b
    decreases a + b
  {
    var p: nat :| p < b && p < s.size && s.load(p).Loaded? && p + s.load(p).length == b && Boundary(s, p);
    hide Boundary;
    if p < a {
      BoundariesApart(s, p, a);
    } else if a < p {
      BoundariesApart(s, a, p);
    }
  }

  ghost predicate LabelAt(s: Script, p: nat, target: Name) {
    Boundary(s, p) && p < s.size && s.load(p).Loaded? && s.load(p).entry == Label(target)
  }

  ghost predicate BehindLabel(s: Script, offset: nat, target: Name) {
    exists p: nat | LabelAt(s, p, target) :: offset == p + s.load(p).length
  }

  // A jump goes behind the first such label; without one it goes to the end, or before a line that fails to load.
  lemma {:induction false} GotoFinds(s: Script, offset: nat, target: Name)
    requires Boundary(s, offset)
    ensures var o := GotoFrom(s, offset, target);
      && (forall p: nat | offset <= p && LabelAt(s, p, target) :: o <= p + s.load(p).length)
      && (BehindLabel(s, o, target) || s.size <= o || s.load(o).LoadError?)
    decreases if offset < s.size then s.size - offset else 0
  {
    hide Boundary;
    forall p: nat | offset < p && LabelAt(s, p, target)
      ensures offset < s.size && s.load(offset).Loaded? && offset + s.load(offset).length <= p
    {
      BoundariesApart(s, offset, p);
    }
    if offset < s.size && s.load(offset).Loaded? {
      NextBoundary(s, offset);
      if s.load(offset).entry != Label(target) {
        GotoFinds(s, offset + s.load(offset).length, target);
      } else {
        assert LabelAt(s, offset, target);
      }
    }
  }

  lemma JumpBoundary(s: Script, target: Name)
    ensures Boundary(s, GotoFrom(s, 0, target))
  {
    hide GotoFrom;
    StartBoundary(s);
    GotoBoundary(s, 0, target);
  }

  lemma TopKeeps(lib: Library, m: Machine, m': Machine)
    requires MachineOk(lib, m) && m'.stack != [] && m'.stack[1..] == m.stack[1..]
    requires FrameOk(lib, m'.stack[0]) && CallOk(lib, m'.stack[0], m'.acc)
    ensures MachineOk(lib, m')
  {
    hide Boundary, FrameOk, CallOk;
    assert |m'.stack| == |m.stack|;
    forall k | 1 <= k < |m'.stack| ensures m'.stack[k] == m.stack[k] {
      assert m'.stack[k] == m'.stack[1..][k - 1] == m.stack[1..][k - 1];
    }
  }

  lemma CompletedKeeps(lib: Library, m: Machine, offset: nat, acc: word16, entered: bool)
    requires MachineOk(lib, m) && Boundary(lib[m.stack[0].script], offset)
    ensures MachineOk(lib, Completed(m, offset, acc, entered))
  {
    hide Boundary;
    TopKeeps(lib, m, Completed(m, offset, acc, entered));
  }

  lemma LoadKeeps(lib: Library, m: Machine)
    requires MachineOk(lib, m) && m.stack[0].state == LOAD
    ensures MachineOk(lib, LoadStep(lib, m))
  {
    hide Boundary, GotoFrom;
    var f := m.stack[0];
    var s := lib[f.script];
    if f.offset < s.size && s.load(f.offset).Loaded? {
      NextBoundary(s, f.offset);
    }
    TopKeeps(lib, m, LoadStep(lib, m));
  }

  lemma EnterKeeps(lib: Library, m: Machine)
    requires MachineOk(lib, m) && m.stack[0].state == LOAD
    requires forall k | 0 <= k < |m.stack| :: m.stack[k].state == LOAD
    ensures forall child | child in lib :: MachineOk(lib, m.(stack := [StartFrame(child)] + m.stack))
  {
    hide Boundary;
    forall child | child in lib ensures MachineOk(lib, m.(stack := [StartFrame(child)] + m.stack)) {
      StartBoundary(lib[child]);
      var stack := [StartFrame(child)] + m.stack;
      assert forall k | 1 <= k < |stack| :: stack[k] == m.stack[k - 1];
    }
  }

  lemma CallKeeps(lib: Library, m: Machine, i: Input)
    requires MachineOk(lib, m) && m.stack[0].state == EXECUTE && m.stack[0].entry.Call?
    ensures MachineOk(lib, CallStep(lib, m, i))
  {
    hide Boundary, GotoFrom;
    var f := m.stack[0];
    if f.call == ENTER {
      CompletedKeeps(lib, m, f.offset, m.acc, true);
      EnterKeeps(lib, Completed(m, f.offset, m.acc, true));
    } else if f.call == DECODE && i.decoding == Denied {
      CompletedKeeps(lib, m, f.offset, REFUSED, false);
    } else {
      TopKeeps(lib, m, CallStep(lib, m, i));
    }
  }

  lemma ExecuteKeeps(lib: Library, m: Machine, i: Input)
    requires MachineOk(lib, m) && m.stack[0].state == EXECUTE
    ensures MachineOk(lib, ExecuteStep(lib, m, i))
  {
    hide Boundary, GotoFrom, CallStep, FrameOk, Completed;
    var f := m.stack[0];
    FrameBoundary(lib, f);
    var s := lib[f.script];
    match f.entry
    case Call(_, _) => CallKeeps(lib, m, i);
    case Jump(target) =>
      JumpBoundary(s, target);
      CompletedKeeps(lib, m, GotoFrom(s, 0, target), m.acc, false);
    case JumpIf(value, target) =>
      JumpBoundary(s, target);
      CompletedKeeps(lib, m, if m.acc == value then GotoFrom(s, 0, target) else f.offset, m.acc, false);
    case Query => CompletedKeeps(lib, m, f.offset, i.answer, false);
    case Wait => WaitingKeeps(lib, m);
    case Other =>
      CompletedKeeps(lib, m, f.offset, m.acc, false);
      FailingKeeps(lib, m);
    case _ => CompletedKeeps(lib, m, f.offset, m.acc, false);
  }

  lemma FrameBoundary(lib: Library, f: Frame)
    requires FrameOk(lib, f)
    ensures f.script in lib && Boundary(lib[f.script], f.offset)
  {
    hide Boundary;
  }

  lemma WaitingKeeps(lib: Library, m: Machine)
    requires MachineOk(lib, m) && m.stack[0].state == EXECUTE && m.stack[0].entry == Wait
    ensures MachineOk(lib, WithTop(m, m.stack[0].(state := WAIT)))
  {
    hide Boundary;
    TopKeeps(lib, m, WithTop(m, m.stack[0].(state := WAIT)));
  }

  lemma FailingKeeps(lib: Library, m: Machine)
    requires MachineOk(lib, m)
    ensures MachineOk(lib, WithTop(m, m.stack[0].(state := ERROR)))
  {
    hide Boundary;
    TopKeeps(lib, m, WithTop(m, m.stack[0].(state := ERROR)));
  }

  // Every offset stays an entry boundary; only the top frame is ever not about to load.
  lemma StepKeeps(lib: Library, m: Machine, i: Input)
    requires MachineOk(lib, m) && Running(m) && m.stack[0].state != ERROR
    ensures MachineOk(lib, Step(lib, m, i))
  {
    hide Boundary, GotoFrom, LoadStep, ExecuteStep, Completed;
    var f := m.stack[0];
    if f.state != QUIT && !i.alive {
      TopKeeps(lib, m, Step(lib, m, i));
    } else {
      match f.state
      case LOAD => LoadKeeps(lib, m);
      case EXECUTE => ExecuteKeeps(lib, m, i);
      case DELAY => TopKeeps(lib, m, Step(lib, m, i));
      case WAIT =>
        forall acc: word16 ensures MachineOk(lib, Completed(m, f.offset, acc, false)) {
          CompletedKeeps(lib, m, f.offset, acc, false);
        }
      case STOP => PopKeeps(lib, m);
      case QUIT =>
        PopKeeps(lib, m);
        TopKeeps(lib, m.(stack := m.stack[1..]), Step(lib, m, i));
    }
  }

  lemma PopKeeps(lib: Library, m: Machine)
    requires MachineOk(lib, m) && |m.stack| > 1
    ensures MachineOk(lib, m.(stack := m.stack[1..]))
  {
    hide Boundary;
    assert forall k | 0 <= k < |m.stack| - 1 :: m.stack[1..][k] == m.stack[k + 1];
  }

  // ----- The machine does what the interpreter says -----

  // What the frames of a stack still execute, one after the other.
  function Resume(lib: Library, stack: seq<Frame>, acc: word16, outs: seq<Outcome>): Ran
    requires forall k | 0 <= k < |stack| :: stack[k].script in lib
    decreases |stack|
  {
    if stack == [] then Finished([], acc, outs)
    else
      match Interpret(lib, stack[0].script, Stand(stack[0]), acc, outs)
      case Pending(t) => Pending(t)
      case Finished(t, a, rest) => Prepend(t, Resume(lib, stack[1..], a, rest))
  }

  // One step, and all that the interpreter would still do whatever happens later.
  ghost predicate Simulates(lib: Library, m: Machine, m': Machine, future: seq<Outcome>)
    requires MachineOk(lib, m) && MachineOk(lib, m')
  {
    && m.trace <= m'.trace && m.outcomes <= m'.outcomes
    && Resume(lib, m.stack, m.acc, m'.outcomes[|m.outcomes|..] + future)
       == Prepend(m'.trace[|m.trace|..], Resume(lib, m'.stack, m'.acc, future))
  }

  lemma PrependAssoc(a: seq<Executed>, b: seq<Executed>, r: Ran)
    ensures Prepend(a + b, r) == Prepend(a, Prepend(b, r))
  {
    assert a + b + r.trace == a + (b + r.trace);
  }

  lemma PrependNothing(r: Ran)
    ensures Prepend([], r) == r
  {
    assert [] + r.trace == r.trace;
  }

  // The same stack, but for fields of its top frame that do not matter to the interpreter.
  lemma QuietSimulates(lib: Library, m: Machine, m': Machine, future: seq<Outcome>)
    requires MachineOk(lib, m) && MachineOk(lib, m')
    requires m'.trace == m.trace && m'.outcomes == m.outcomes
    requires m'.stack[1..] == m.stack[1..] && m'.stack[0].script == m.stack[0].script
    requires Stand(m'.stack[0]) == Stand(m.stack[0])
    requires m'.acc == m.acc || (IsPending(m.stack[0]) && m.stack[0].entry.Call?)
    ensures Simulates(lib, m, m', future)
  {
    hide Boundary, Stand;
    assert m'.outcomes[|m.outcomes|..] + future == future;
    PrependNothing(Resume(lib, m'.stack, m'.acc, future));
    var f := m.stack[0];
    if m'.acc != m.acc {
      TopStands(lib, m);
      assert Interpret(lib, f.script, Stand(f), m'.acc, future) == Interpret(lib, f.script, Stand(f), m.acc, future);
    }
  }

  lemma TopStands(lib: Library, m: Machine)
    requires MachineOk(lib, m) && IsPending(m.stack[0])
    ensures m.stack != [] && m.stack[0].script in lib
    ensures Stand(m.stack[0]) == m.stack[0].at < lib[m.stack[0].script].size
    ensures var e := lib[m.stack[0].script].load(m.stack[0].at);
      e.Loaded? && e.entry == m.stack[0].entry && m.stack[0].offset == m.stack[0].at + e.length
  {
    hide Boundary;
  }

  function NextOffset(s: Script, at: nat, acc: word16): nat
    requires s.load(at).Loaded?
  {
    match s.load(at).entry
    case Jump(target) => GotoFrom(s, 0, target)
    case JumpIf(value, target) => if acc == value then GotoFrom(s, 0, target) else at + s.load(at).length
    case _ => at + s.load(at).length
  }

  function NextAcc(entry: Entry, acc: word16, o: Outcome): word16 {
    if entry.Call? then REFUSED else if entry.Wait? || entry.Query? then o.acc else acc
  }

  // The interpreter on an entry that does not enter a script.
  lemma EntryMeans(lib: Library, name: Name, at: nat, acc: word16, o: Outcome, future: seq<Outcome>)
    requires name in lib && at < lib[name].size && lib[name].load(at).Loaded?
    requires lib[name].load(at).entry.Call? ==> !o.entered
    ensures var s := lib[name];
      Interpret(lib, name, at, acc, [o] + future)
      == Prepend([Executed(name, at)],
                 Interpret(lib, name, NextOffset(s, at, acc), NextAcc(s.load(at).entry, acc, o), future))
  {
    hide GotoFrom;
    assert ([o] + future)[1..] == future;
  }

  // The entry of the top frame is completed as the interpreter completes it.
  lemma CompletedSimulates(lib: Library, m: Machine, offset: nat, acc: word16, future: seq<Outcome>)
    requires MachineOk(lib, m) && IsPending(m.stack[0])
    requires var f := m.stack[0];
      Interpret(lib, f.script, f.at, m.acc, [Outcome(acc, false)] + future)
      == Prepend([Executed(f.script, f.at)], Interpret(lib, f.script, offset, acc, future))
    requires MachineOk(lib, Completed(m, offset, acc, false))
    ensures Simulates(lib, m, Completed(m, offset, acc, false), future)
  {
    hide Boundary, Interpret;
    var f := m.stack[0];
    var m' := Completed(m, offset, acc, false);
    TopStands(lib, m);
    var outs := [Outcome(acc, false)] + future;
    assert m'.outcomes[|m.outcomes|..] + future == outs;
    var here := [Executed(f.script, f.at)];
    assert m'.trace[|m.trace|..] == here;
    var r := Interpret(lib, f.script, offset, acc, future);
    if r.Finished? {
      PrependAssoc(here, r.trace, Resume(lib, m.stack[1..], r.acc, r.rest));
    }
  }

  // A called script is executed in place of its call.
  lemma EnterSimulates(lib: Library, m: Machine, i: Input, future: seq<Outcome>)
    requires MachineOk(lib, m) && m.stack[0].state == EXECUTE
    requires m.stack[0].entry.Call? && m.stack[0].call == ENTER
    requires MachineOk(lib, CallStep(lib, m, i))
    ensures Simulates(lib, m, CallStep(lib, m, i), future)
  {
    hide Boundary;
    var f := m.stack[0];
    var m' := CallStep(lib, m, i);
    TopStands(lib, m);
    var outs := [Outcome(m.acc, true)] + future;
    assert m'.outcomes[|m.outcomes|..] + future == outs && outs[1..] == future;
    var here := [Executed(f.script, f.at)];
    assert m'.trace[|m.trace|..] == here;
    var parent := f.(state := LOAD);
    assert m'.stack[1..] == [parent] + m.stack[1..];
    assert m'.stack[1..][1..] == m.stack[1..];
    var child := Interpret(lib, f.entry.script, 0, 0, future);
    if child.Finished? {
      var r := Interpret(lib, f.script, f.offset, child.acc, child.rest);
      assert Interpret(lib, f.script, f.at, m.acc, outs) == Prepend(here + child.trace, r);
      PrependAssoc(here, child.trace, Resume(lib, m'.stack[1..], child.acc, child.rest));
      if r.Finished? {
        PrependAssoc(here + child.trace, r.trace, Resume(lib, m.stack[1..], r.acc, r.rest));
      }
    }
  }

  lemma CallSimulates(lib: Library, m: Machine, i: Input, future: seq<Outcome>)
    requires MachineOk(lib, m) && m.stack[0].state == EXECUTE && m.stack[0].entry.Call?
    requires MachineOk(lib, CallStep(lib, m, i)) && Clean(CallStep(lib, m, i))
    ensures Simulates(lib, m, CallStep(lib, m, i), future)
  {
    TopStands(lib, m);
    hide MachineOk, Resume, Simulates, Interpret;
    var f := m.stack[0];
    if f.call == ENTER {
      EnterSimulates(lib, m, i, future);
    } else if f.call == DECODE && i.decoding == Denied {
      EntryMeans(lib, f.script, f.at, m.acc, Outcome(REFUSED, false), future);
      CompletedSimulates(lib, m, f.offset, REFUSED, future);
    } else {
      QuietSimulates(lib, m, CallStep(lib, m, i), future);
    }
  }

  // Every other entry is completed as soon as it is done.
  lemma ExecuteCompletes(lib: Library, m: Machine, i: Input)
    requires m.stack != [] && m.stack[0].script in lib && Clean(ExecuteStep(lib, m, i))
    requires var f := m.stack[0];
      && lib[f.script].load(f.at).Loaded? && lib[f.script].load(f.at).entry == f.entry
      && f.offset == f.at + lib[f.script].load(f.at).length
    requires !m.stack[0].entry.Call? && !m.stack[0].entry.Wait? && (m.stack[0].entry.Other? ==> i.done)
    ensures var f := m.stack[0];
      ExecuteStep(lib, m, i)
      == Completed(m, NextOffset(lib[f.script], f.at, m.acc), if f.entry.Query? then i.answer else m.acc, false)
  {
    hide GotoFrom, Completed;
  }

  lemma ExecuteSimulates(lib: Library, m: Machine, i: Input, future: seq<Outcome>)
    requires MachineOk(lib, m) && m.stack[0].state == EXECUTE
    requires MachineOk(lib, ExecuteStep(lib, m, i)) && Clean(ExecuteStep(lib, m, i))
    ensures Simulates(lib, m, ExecuteStep(lib, m, i), future)
  {
    TopStands(lib, m);
    hide MachineOk, GotoFrom, Resume, Simulates, Interpret, CallStep, Completed;
    var f := m.stack[0];
    if f.entry.Call? {
      CallSimulates(lib, m, i, future);
    } else if f.entry.Wait? {
      QuietSimulates(lib, m, WithTop(m, f.(state := WAIT)), future);
    } else if f.entry.Other? && !i.done {
      QuietSimulates(lib, m, m, future);
    } else {
      hide ExecuteStep, NextOffset;
      var acc := if f.entry.Query? then i.answer else m.acc;
      ExecuteCompletes(lib, m, i);
      EntryMeans(lib, f.script, f.at, m.acc, Outcome(acc, false), future);
      CompletedSimulates(lib, m, NextOffset(lib[f.script], f.at, m.acc), acc, future);
    }
  }

  lemma WaitSimulates(lib: Library, m: Machine, i: Input, future: seq<Outcome>)
    requires MachineOk(lib, m) && m.stack[0].state == WAIT && m.stack[0].entry == Wait
    requires MachineOk(lib, WaitStep(m, i))
    ensures Simulates(lib, m, WaitStep(m, i), future)
  {
    TopStands(lib, m);
    hide MachineOk, Resume, Simulates, Interpret, Completed;
    var f := m.stack[0];
    if (i.key != 0 && i.zooms) || (i.key == 0 && i.tag == 0 && m.acc <= HOVER) {
      QuietSimulates(lib, m, m, future);
    } else {
      var acc :=
        if i.key != 0 then i.key
        else if i.tag != 0 then if i.pressed then i.tag else (HOVER + i.tag) % 0x1_0000
        else HOVER;
      EntryMeans(lib, f.script, f.at, m.acc, Outcome(acc, false), future);
      CompletedSimulates(lib, m, f.offset, acc, future);
    }
  }

  lemma StopSimulates(lib: Library, m: Machine, future: seq<Outcome>)
    requires MachineOk(lib, m) && m.stack[0].state == STOP && MachineOk(lib, m.(stack := m.stack[1..]))
    ensures Simulates(lib, m, m.(stack := m.stack[1..]), future)
  {
    hide Boundary;
    var rest := Resume(lib, m.stack[1..], m.acc, future);
    assert FrameOk(lib, m.stack[0]);
    assert m.outcomes[|m.outcomes|..] + future == future && m.trace[|m.trace|..] == [];
    PrependNothing(rest);
    assert Resume(lib, m.stack, m.acc, future) == Prepend([], rest);
  }

  // Every step does what the interpreter does next.
  lemma StepSimulates(lib: Library, m: Machine, i: Input, future: seq<Outcome>)
    requires MachineOk(lib, m) && Running(m) && Clean(m) && Clean(Step(lib, m, i))
    ensures MachineOk(lib, Step(lib, m, i)) && Simulates(lib, m, Step(lib, m, i), future)
  {
    hide Boundary, Resume, Simulates, Interpret, GotoFrom, ExecuteStep, WaitStep;
    StepKeeps(lib, m, i);
    var m' := Step(lib, m, i);
    match m.stack[0].state
    case EXECUTE => ExecuteSimulates(lib, m, i, future);
    case WAIT =>
      assert FrameOk(lib, m.stack[0]);
      WaitSimulates(lib, m, i, future);
    case STOP => StopSimulates(lib, m, future);
    case LOAD => QuietSimulates(lib, m, m', future);
    case DELAY => QuietSimulates(lib, m, m', future);
  }

  // ----- Whole runs -----

  // The main loop for as long as there are inputs; the model of it ends at the first error.
  ghost function Run(lib: Library, m: Machine, inputs: seq<Input>): (r: Machine)
    requires MachineOk(lib, m)
    ensures MachineOk(lib, r)
    decreases |inputs|
  {
    if inputs == [] || !Running(m) || m.stack[0].state == ERROR then m
    else
      StepKeeps(lib, m, inputs[0]);
      Run(lib, Step(lib, m, inputs[0]), inputs[1..])
  }

  lemma TopKnown(lib: Library, m: Machine)
    requires MachineOk(lib, m)
    ensures m.stack != [] && m.stack[0].script in lib
  {
    assert FrameOk(lib, m.stack[0]);
  }

  function Start(name: Name, acc: word16): Machine { Machine([StartFrame(name)], acc, [], []) }

  // Once the wish to quit or an error is there, no entry is executed any more.
  lemma {:induction false} NothingAfterQuit(lib: Library, m: Machine, inputs: seq<Input>)
    requires MachineOk(lib, m) && !Clean(m)
    ensures Run(lib, m, inputs).trace == m.trace && Run(lib, m, inputs).outcomes == m.outcomes
    ensures !Clean(Run(lib, m, inputs))
    decreases |inputs|
  {
    TopKnown(lib, m);
    hide MachineOk, LoadStep, ExecuteStep, WaitStep;
    if inputs != [] && Running(m) && m.stack[0].state != ERROR {
      StepKeeps(lib, m, inputs[0]);
      NothingAfterQuit(lib, Step(lib, m, inputs[0]), inputs[1..]);
    }
  }

  // Without further outcomes the interpreter executes nothing more.
  lemma {:induction false} NothingWithoutOutcomes(lib: Library, stack: seq<Frame>, acc: word16)
    requires forall k | 0 <= k < |stack| :: stack[k].script in lib
    ensures Resume(lib, stack, acc, []).trace == []
    decreases |stack|
  {
    if stack != [] {
      NothingWithoutOutcomes(lib, stack[1..], acc);
    }
  }

  // Between two points of a run the entries executed are those the interpreter goes through,
  // and at the second it stands where the machine does.
  ghost predicate Refines(lib: Library, m: Machine, r: Machine)
    requires MachineOk(lib, m) && MachineOk(lib, r)
  {
    && m.trace <= r.trace && m.outcomes <= r.outcomes
    && var meant := Resume(lib, m.stack, m.acc, r.outcomes[|m.outcomes|..]);
      && meant.trace == r.trace[|m.trace|..]
      && (Clean(r) ==> meant == Prepend(r.trace[|m.trace|..], Resume(lib, r.stack, r.acc, [])))
  }

  lemma NothingYet(lib: Library, m: Machine, r: Machine)
    requires MachineOk(lib, m) && MachineOk(lib, r)
    requires r.trace == m.trace && r.outcomes == m.outcomes && (Clean(r) ==> r == m)
    ensures Refines(lib, m, r)
  {
    hide Boundary, Interpret;
    NothingWithoutOutcomes(lib, m.stack, m.acc);
    assert r.outcomes[|m.outcomes|..] == [] && r.trace[|m.trace|..] == [];
    PrependNothing(Resume(lib, m.stack, m.acc, []));
  }

  lemma Chain(lib: Library, m: Machine, m': Machine, r: Machine)
    requires MachineOk(lib, m) && MachineOk(lib, m') && MachineOk(lib, r)
    requires Refines(lib, m', r) && Simulates(lib, m, m', r.outcomes[|m'.outcomes|..])
    ensures Refines(lib, m, r)
  {
    hide Boundary, Interpret, Resume;
    var future := r.outcomes[|m'.outcomes|..];
    assert m'.outcomes[|m.outcomes|..] + future == r.outcomes[|m.outcomes|..];
    assert m'.trace[|m.trace|..] + r.trace[|m'.trace|..] == r.trace[|m.trace|..];
    if Clean(r) {
      PrependAssoc(m'.trace[|m.trace|..], r.trace[|m'.trace|..], Resume(lib, r.stack, r.acc, []));
    }
  }

  lemma QuitStepIsQuiet(lib: Library, m: Machine, i: Input)
    requires m.stack != [] && m.stack[0].script in lib && m.stack[0].state != ERROR
    requires Clean(m) && Step(lib, m, i).stack != [] && !Clean(Step(lib, m, i))
    requires forall k | 1 <= k < |m.stack| :: m.stack[k].state == LOAD
    ensures Step(lib, m, i).trace == m.trace && Step(lib, m, i).outcomes == m.outcomes
  {
    hide GotoFrom, Completed, LoadStep, ExecuteStep, WaitStep;
    if m.stack[0].state == LOAD && i.alive {
      LoadQuits(lib, m);
    } else if m.stack[0].state == EXECUTE && i.alive {
      ExecuteQuits(lib, m, i);
    } else if m.stack[0].state == WAIT && i.alive {
      WaitQuits(m, i);
    }
  }

  lemma LoadQuits(lib: Library, m: Machine)
    requires m.stack != [] && m.stack[0].script in lib
    ensures LoadStep(lib, m).trace == m.trace && LoadStep(lib, m).outcomes == m.outcomes
  {
  }

  lemma ExecuteQuits(lib: Library, m: Machine, i: Input)
    requires m.stack != [] && m.stack[0].script in lib && !Clean(ExecuteStep(lib, m, i))
    ensures ExecuteStep(lib, m, i).trace == m.trace && ExecuteStep(lib, m, i).outcomes == m.outcomes
  {
    hide GotoFrom;
  }

  lemma WaitQuits(m: Machine, i: Input)
    requires m.stack != [] && m.stack[0].state == WAIT
    ensures Clean(WaitStep(m, i))
  {
  }

  lemma {:induction false} RunRefines(lib: Library, m: Machine, inputs: seq<Input>)
    requires MachineOk(lib, m) && Clean(m)
    ensures Refines(lib, m, Run(lib, m, inputs))
    decreases |inputs|
  {
    TopKnown(lib, m);
    assert forall k | 1 <= k < |m.stack| :: m.stack[k].state == LOAD;
    hide MachineOk, LoadStep, ExecuteStep, WaitStep, Refines, Simulates;
    if inputs == [] || !Running(m) {
      NothingYet(lib, m, m);
    } else {
      StepKeeps(lib, m, inputs[0]);
      var m' := Step(lib, m, inputs[0]);
      var r := Run(lib, m', inputs[1..]);
      if Clean(m') {
        RunRefines(lib, m', inputs[1..]);
        StepSimulates(lib, m, inputs[0], r.outcomes[|m'.outcomes|..]);
        Chain(lib, m, m', r);
      } else {
        TopKnown(lib, m');
        NothingAfterQuit(lib, m', inputs[1..]);
        QuitStepIsQuiet(lib, m, inputs[0]);
        NothingYet(lib, m, r);
      }
    }
  }

  // In a run from the start of a script, however it goes, the machine executes what the
  // script means; and if it comes to its end, so does the interpreter, with the same accumulator.
  lemma EveryRunIsTheScript(lib: Library, name: Name, acc: word16, inputs: seq<Input>)
    requires name in lib
    ensures MachineOk(lib, Start(name, acc))
    ensures var r := Run(lib, Start(name, acc), inputs);
      var meant := Interpret(lib, name, 0, acc, r.outcomes);
      && meant.trace == r.trace
      && (r.stack[|r.stack| - 1].state == STOP ==> meant == Finished(r.trace, r.acc, []))
  {
    hide Boundary, Interpret, Run;
    StartBoundary(lib[name]);
    var m := Start(name, acc);
    var r := Run(lib, m, inputs);
    RunRefines(lib, m, inputs);
    assert r.outcomes[|m.outcomes|..] == r.outcomes && r.trace[|m.trace|..] == r.trace;
    var meant := Interpret(lib, name, 0, acc, r.outcomes);
    assert Stand(m.stack[0]) == 0;
    if meant.Finished? {
      assert Resume(lib, [], meant.acc, meant.rest).trace == [];
    }
    assert Resume(lib, m.stack, acc, r.outcomes) == meant by {
      if meant.Finished? { assert meant.trace + [] == meant.trace; }
    }
    if r.stack[|r.stack| - 1].state == STOP {
      var s := lib[r.stack[0].script];
      assert FrameOk(lib, r.stack[0]);
      EndOfScript(lib, r.stack[0].script, r.stack[0].offset, r.acc);
      assert Resume(lib, r.stack, r.acc, []) == Finished([], r.acc, []);
      assert r.trace + [] == r.trace;
    }
  }

  lemma EndOfScript(lib: Library, name: Name, offset: nat, acc: word16)
    requires name in lib && lib[name].size <= offset
    ensures Interpret(lib, name, offset, acc, []) == Finished([], acc, [])
  {
  }

  // Only entries that are reached by loading entry after entry from the start are executed.
  ghost predicate OnBoundaries(lib: Library, trace: seq<Executed>) {
    forall e | e in trace ::
      e.script in lib && e.offset < lib[e.script].size && lib[e.script].load(e.offset).Loaded?
      && Boundary(lib[e.script], e.offset)
  }

  lemma {:induction false} InterpretedOnBoundaries(lib: Library, name: Name, offset: nat, acc: word16,
                                                   outs: seq<Outcome>)
    requires name in lib && Boundary(lib[name], offset)
    ensures OnBoundaries(lib, Interpret(lib, name, offset, acc, outs).trace)
    decreases |outs|
  {
    hide Boundary, GotoFrom;
    var s := lib[name];
    if offset < s.size && outs != [] && s.load(offset).Loaded? {
      var next, rest := offset + s.load(offset).length, outs[1..];
      NextBoundary(s, offset);
      match s.load(offset).entry
      case Call(child, _) =>
        if outs[0].entered && child in lib {
          StartBoundary(lib[child]);
          InterpretedOnBoundaries(lib, child, 0, 0, rest);
          var r := Interpret(lib, child, 0, 0, rest);
          if r.Finished? {
            InterpretedOnBoundaries(lib, name, next, r.acc, r.rest);
          }
        } else {
          InterpretedOnBoundaries(lib, name, next, REFUSED, rest);
        }
      case Jump(target) =>
        JumpBoundary(s, target);
        InterpretedOnBoundaries(lib, name, GotoFrom(s, 0, target), acc, rest);
      case JumpIf(value, target) =>
        JumpBoundary(s, target);
        InterpretedOnBoundaries(lib, name, if acc == value then GotoFrom(s, 0, target) else next, acc, rest);
      case Wait => InterpretedOnBoundaries(lib, name, next, outs[0].acc, rest);
      case Query => InterpretedOnBoundaries(lib, name, next, outs[0].acc, rest);
      case _ => InterpretedOnBoundaries(lib, name, next, acc, rest);
    }
  }

  lemma EveryRunOnBoundaries(lib: Library, name: Name, acc: word16, inputs: seq<Input>)
    requires name in lib
    ensures MachineOk(lib, Start(name, acc))
    ensures OnBoundaries(lib, Run(lib, Start(name, acc), inputs).trace)
  {
    hide Boundary, Interpret, OnBoundaries;
    EveryRunIsTheScript(lib, name, acc, inputs);
    StartBoundary(lib[name]);
    InterpretedOnBoundaries(lib, name, 0, acc, Run(lib, Start(name, acc), inputs).outcomes);
  }

  // ----- What ends an entry, and with which accumulator -----

  // An input that ends an entry, the accumulator having been acc, and the outcome that is recorded: a key that does
  // not zoom, an area under the pointer, with its tag if the button is down, or the end of hovering for a wait; the
  // answer for a query; a script that ran or one that was denied for a call; that it is done for drawing and playing.
  predicate Ends(entry: Entry, acc: word16, i: Input, o: Outcome) {
    match entry
    case Wait =>
      && !o.entered
      && (if i.key != 0 then !i.zooms && o.acc == i.key
          else if i.tag != 0 && i.pressed then o.acc == i.tag
          else if i.tag != 0 then o.acc == (10000 + i.tag) % 65536
          else 10000 < acc && o.acc == 10000)
    case Query => o == Outcome(i.answer, false)
    case Call(_, stored) => o == Outcome(0, true) || (o == Outcome(65535, false) && i.decoding == Denied && !stored)
    case Other => i.done && !i.failed && o == Outcome(acc, false)
    case _ => o == Outcome(acc, false)
  }

  // The entry of the top frame of a machine was ended by an input.
  ghost predicate EndedBy(lib: Library, m: Machine, i: Input, e: Executed, o: Outcome) {
    && m.stack != [] && m.stack[0].state in {EXECUTE, WAIT} && i.alive
    && e == Executed(m.stack[0].script, m.stack[0].at)
    && e.script in lib && lib[e.script].load(e.offset).Loaded?
    && (m.stack[0].state == WAIT <==> lib[e.script].load(e.offset).entry == Wait)
    && Ends(lib[e.script].load(e.offset).entry, m.acc, i, o)
  }

  // A step records nothing, or that it ended the entry of the top frame.
  ghost predicate Records(lib: Library, m: Machine, i: Input, m': Machine) {
    || (m'.trace == m.trace && m'.outcomes == m.outcomes)
    || (&& |m'.trace| == |m.trace| + 1 && m.trace <= m'.trace
        && |m'.outcomes| == |m.outcomes| + 1 && m.outcomes <= m'.outcomes
        && EndedBy(lib, m, i, m'.trace[|m.trace|], m'.outcomes[|m.outcomes|]))
  }

  lemma StepRecords(lib: Library, m: Machine, i: Input)
    requires MachineOk(lib, m) && Running(m) && m.stack[0].state != ERROR
    ensures m.stack[0].script in lib && Records(lib, m, i, Step(lib, m, i))
  {
    TopKnown(lib, m);
    assert FrameOk(lib, m.stack[0]);
    hide MachineOk, Boundary, GotoFrom, ExecuteStep, LoadStep, FrameOk;
    if m.stack[0].state == EXECUTE && i.alive {
      ExecuteRecords(lib, m, i);
    } else if m.stack[0].state == LOAD {
      LoadQuits(lib, m);
    }
  }

  lemma ExecuteRecords(lib: Library, m: Machine, i: Input)
    requires MachineOk(lib, m) && m.stack[0].state == EXECUTE && i.alive
    ensures Records(lib, m, i, ExecuteStep(lib, m, i))
  {
    TopKnown(lib, m);
    TopStands(lib, m);
    assert CallOk(lib, m.stack[0], m.acc);
    hide MachineOk, Boundary, GotoFrom, Stand;
    if m.stack[0].entry.Call? {
      assert ExecuteStep(lib, m, i) == CallStep(lib, m, i);
      hide ExecuteStep;
    } else {
      hide CallStep;
    }
  }

  lemma {:induction false} RunExtends(lib: Library, m: Machine, inputs: seq<Input>)
    requires MachineOk(lib, m) && |m.trace| == |m.outcomes|
    ensures var r := Run(lib, m, inputs);
      |r.trace| == |r.outcomes| && m.trace <= r.trace && m.outcomes <= r.outcomes
    decreases |inputs|
  {
    if inputs != [] && Running(m) && m.stack[0].state != ERROR {
      StepRecords(lib, m, inputs[0]);
      hide MachineOk, Step, EndedBy;
      StepKeeps(lib, m, inputs[0]);
      RunExtends(lib, Step(lib, m, inputs[0]), inputs[1..]);
    }
  }

  // Entry k of the record of a run was ended by input t.
  ghost predicate EndedAt(lib: Library, m: Machine, inputs: seq<Input>, t: nat, k: nat)
    requires MachineOk(lib, m) && t < |inputs|
  {
    var before, r := Run(lib, m, inputs[..t]), Run(lib, m, inputs);
    && k < |r.trace| == |r.outcomes|
    && before.trace == r.trace[..k] && before.outcomes == r.outcomes[..k]
    && EndedBy(lib, before, inputs[t], r.trace[k], r.outcomes[k])
  }

  // In every run each entry that is recorded was ended by one of the inputs, on the machine that the inputs before it
  // led to.
  lemma {:induction false} EveryOutcome(lib: Library, m: Machine, inputs: seq<Input>, k: nat) returns (t: nat)
    requires MachineOk(lib, m) && |m.trace| == |m.outcomes| <= k < |Run(lib, m, inputs).outcomes|
    ensures t < |inputs| && EndedAt(lib, m, inputs, t, k)
    decreases |inputs|
  {
    hide MachineOk, Step, EndedBy, EndedAt, Records;
    RecordsOne(lib, m, inputs[0]);
    StepKeeps(lib, m, inputs[0]);
    var m' := Step(lib, m, inputs[0]);
    RunExtends(lib, m', inputs[1..]);
    if k < |m'.outcomes| {
      t := 0;
      EndedAtOnce(lib, m, inputs);
    } else {
      var t' := EveryOutcome(lib, m', inputs[1..], k);
      t := t' + 1;
      EndedLater(lib, m, inputs, t', k);
    }
  }

  lemma RecordsOne(lib: Library, m: Machine, i: Input)
    requires MachineOk(lib, m) && Running(m) && m.stack[0].state != ERROR && |m.trace| == |m.outcomes|
    ensures m.stack[0].script in lib
    ensures var m' := Step(lib, m, i); |m'.trace| == |m'.outcomes| <= |m.outcomes| + 1
  {
    hide MachineOk, Step, EndedBy;
    StepRecords(lib, m, i);
  }

  lemma EndedAtOnce(lib: Library, m: Machine, inputs: seq<Input>)
    requires MachineOk(lib, m) && Running(m) && m.stack[0].state != ERROR && |m.trace| == |m.outcomes| && inputs != []
    requires m.stack[0].script in lib && |Step(lib, m, inputs[0]).outcomes| == |m.outcomes| + 1
    ensures EndedAt(lib, m, inputs, 0, |m.outcomes|)
  {
    hide MachineOk, Step, EndedBy;
    StepKeeps(lib, m, inputs[0]);
    StepRecords(lib, m, inputs[0]);
    RunExtends(lib, Step(lib, m, inputs[0]), inputs[1..]);
    assert inputs[..0] == [] && Run(lib, m, []) == m;
  }

  lemma EndedLater(lib: Library, m: Machine, inputs: seq<Input>, t: nat, k: nat)
    requires MachineOk(lib, m) && Running(m) && m.stack[0].state != ERROR && t + 1 < |inputs|
    requires m.stack[0].script in lib && MachineOk(lib, Step(lib, m, inputs[0]))
    requires EndedAt(lib, Step(lib, m, inputs[0]), inputs[1..], t, k)
    ensures EndedAt(lib, m, inputs, t + 1, k)
  {
    hide MachineOk, Step, EndedBy;
    assert inputs[..t + 1][1..] == inputs[1..][..t];
  }

  // The inputs that end a wait: a key that does not zoom, or, without a key, an area under the pointer or the end of
  // hovering. Any other one leaves everything as it is.
  lemma WaitEndsExactly(lib: Library, m: Machine, i: Input)
    requires MachineOk(lib, m) && m.stack[0].state == WAIT && i.alive
    ensures m.stack[0].script in lib
    ensures var ends := if i.key != 0 then !i.zooms else i.tag != 0 || 10000 < m.acc;
      if ends then |Step(lib, m, i).trace| == |m.trace| + 1 && Step(lib, m, i).stack[0].state == LOAD
      else Step(lib, m, i) == m
  {
    TopKnown(lib, m);
    hide Boundary;
  }

  // ----- Last in, first out -----

  // A run whose stack stays deeper than some depth.
  ghost predicate Above(lib: Library, m: Machine, inputs: seq<Input>, depth: nat)
    requires MachineOk(lib, m)
    decreases |inputs|
  {
    && depth < |m.stack|
    && if inputs == [] || !Running(m) || m.stack[0].state == ERROR then true
       else
         StepKeeps(lib, m, inputs[0]);
         Above(lib, Step(lib, m, inputs[0]), inputs[1..], depth)
  }

  function Bottom(stack: seq<Frame>, depth: nat): seq<Frame>
    requires depth <= |stack|
  {
    stack[|stack| - depth..]
  }

  // The top frame changed, one pushed or one taken off.
  predicate Shaped(before: seq<Frame>, after: seq<Frame>) {
    || (|after| == |before| && after != [] && after[1..] == before[1..])
    || (|after| == |before| + 1 && before != [] && after[2..] == before[1..])
    || (|after| + 1 == |before| && (after != [] ==> after[1..] == before[2..]))
  }

  lemma StepShape(lib: Library, m: Machine, i: Input)
    requires m.stack != [] && m.stack[0].script in lib && m.stack[0].state != ERROR
    ensures Shaped(m.stack, Step(lib, m, i).stack)
  {
    hide GotoFrom, WithTop, Completed;
  }

  lemma DropTwice<T>(s: seq<T>, i: nat, j: nat)
    requires i + j <= |s|
    ensures s[i..][j..] == s[i + j..]
  {
  }

  lemma BottomKept(before: seq<Frame>, after: seq<Frame>, depth: nat)
    requires Shaped(before, after) && depth < |before| && depth < |after|
    ensures Bottom(after, depth) == Bottom(before, depth)
  {
    var d := |after| - depth;
    if |after| == |before| {
      DropTwice(before, 1, d - 1);
      DropTwice(after, 1, d - 1);
    } else if |after| == |before| + 1 {
      DropTwice(before, 1, d - 2);
      DropTwice(after, 2, d - 2);
    } else {
      DropTwice(before, 2, d - 1);
      DropTwice(after, 1, d - 1);
    }
  }

  lemma StepLeavesBottom(lib: Library, m: Machine, i: Input, depth: nat)
    requires MachineOk(lib, m) && Running(m) && m.stack[0].state != ERROR
    requires depth < |m.stack|
    ensures m.stack[0].script in lib && MachineOk(lib, Step(lib, m, i))
    ensures depth < |Step(lib, m, i).stack| ==> Bottom(Step(lib, m, i).stack, depth) == Bottom(m.stack, depth)
  {
    TopKnown(lib, m);
    hide MachineOk, Step, Shaped, Bottom;
    StepKeeps(lib, m, i);
    StepShape(lib, m, i);
    if depth < |Step(lib, m, i).stack| {
      BottomKept(m.stack, Step(lib, m, i).stack, depth);
    }
  }

  // The frames below a called script are not touched.
  lemma {:induction false} RunLeavesBottom(lib: Library, m: Machine, inputs: seq<Input>, depth: nat)
    requires MachineOk(lib, m) && Above(lib, m, inputs, depth)
    ensures depth < |Run(lib, m, inputs).stack|
    ensures Bottom(Run(lib, m, inputs).stack, depth) == Bottom(m.stack, depth)
    decreases |inputs|
  {
    TopKnown(lib, m);
    hide MachineOk, Step;
    if inputs != [] && Running(m) && m.stack[0].state != ERROR {
      StepLeavesBottom(lib, m, inputs[0], depth);
      RunLeavesBottom(lib, Step(lib, m, inputs[0]), inputs[1..], depth);
    }
  }

  // A caller goes on where it left, whatever the called script and those that it calls did.
  lemma CallReturns(lib: Library, m: Machine, enter: Input, inputs: seq<Input>, leave: Input)
    requires MachineOk(lib, m) && Running(m) && m.stack[0].script in lib && m.stack[0].state == EXECUTE
    requires m.stack[0].entry.Call? && m.stack[0].call == ENTER && enter.alive && leave.alive
    requires MachineOk(lib, Step(lib, m, enter)) && Above(lib, Step(lib, m, enter), inputs, |m.stack|)
    requires var r := Run(lib, Step(lib, m, enter), inputs); |r.stack| == |m.stack| + 1 && r.stack[0].state == STOP
    ensures var r := Run(lib, Step(lib, m, enter), inputs);
      r.stack[0].script in lib && Step(lib, r, leave).stack == WithTop(m, m.stack[0].(state := LOAD)).stack
  {
    EnterPushes(lib, m, enter);
    RunLeavesBottom(lib, Step(lib, m, enter), inputs, |m.stack|);
    var r := Run(lib, Step(lib, m, enter), inputs);
    TopKnown(lib, r);
    hide *;
    StoppedLeaves(lib, r, leave);
    BottomIsTail(r.stack, |m.stack|);
    BottomIsTail(Step(lib, m, enter).stack, |m.stack|);
  }

  lemma BottomIsTail(stack: seq<Frame>, depth: nat)
    requires depth + 1 == |stack|
    ensures Bottom(stack, depth) == stack[1..]
  {
  }

  lemma EnterPushes(lib: Library, m: Machine, i: Input)
    requires m.stack != [] && m.stack[0].script in lib && m.stack[0].state == EXECUTE && i.alive
    requires m.stack[0].entry.Call? && m.stack[0].call == ENTER
    ensures var after := Step(lib, m, i).stack;
      |after| == |m.stack| + 1 && after[1..] == WithTop(m, m.stack[0].(state := LOAD)).stack
  {
    hide GotoFrom;
  }

  lemma StoppedLeaves(lib: Library, m: Machine, i: Input)
    requires m.stack != [] && m.stack[0].script in lib && m.stack[0].state == STOP && i.alive
    ensures Step(lib, m, i).stack == m.stack[1..]
  {
  }

  // The wish to quit reaches the first script in as many steps as there are scripts above it.
  lemma {:induction false} QuitUnwinds(lib: Library, m: Machine, inputs: seq<Input>)
    requires MachineOk(lib, m) && m.stack[0].state == QUIT && |m.stack| - 1 <= |inputs|
    ensures Run(lib, m, inputs).stack == [m.stack[|m.stack| - 1].(state := QUIT)]
    decreases |inputs|
  {
    if |m.stack| > 1 {
      assert Running(m);
      TopKnown(lib, m);
      StepKeeps(lib, m, inputs[0]);
      var m' := Step(lib, m, inputs[0]);
      assert m'.stack[|m'.stack| - 1].(state := QUIT) == m.stack[|m.stack| - 1].(state := QUIT);
      QuitUnwinds(lib, m', inputs[1..]);
    } else {
      assert m.stack == [m.stack[0]];
    }
  }

  // ----- Delays -----

  // An entry that is loaded waits for its delay, a blank one for that of the entry before it.
  lemma LoadDelays(lib: Library, m: Machine, i: Input)
    requires MachineOk(lib, m) && m.stack[0].state == LOAD && i.alive
    requires var s := lib[m.stack[0].script]; m.stack[0].offset < s.size && s.load(m.stack[0].offset).Loaded?
    ensures var e := lib[m.stack[0].script].load(m.stack[0].offset);
      var f := Step(lib, m, i).stack[0];
      && f.delayed == (if e.entry == Blank then m.stack[0].delayed else e.delayed)
      && (f.state == DELAY <==> f.delayed) && (f.state == EXECUTE <==> !f.delayed)
  {
    TopKnown(lib, m);
    hide Boundary;
  }

  // Nothing happens before the delay is over, and then the entry is executed.
  lemma {:induction false} DelayHolds(lib: Library, m: Machine, inputs: seq<Input>)
    requires MachineOk(lib, m) && Running(m) && m.stack[0].state == DELAY
    requires forall i | i in inputs :: i.alive && !i.elapsed
    ensures Run(lib, m, inputs) == m
    ensures m.stack[0].script in lib
    ensures forall i: Input | i.alive && i.elapsed :: Step(lib, m, i) == WithTop(m, m.stack[0].(state := EXECUTE))
    decreases |inputs|
  {
    TopKnown(lib, m);
    hide Boundary;
    if inputs != [] {
      assert inputs[0] in inputs;
      DelayHolds(lib, m, inputs[1..]);
    }
  }

  // ----- Closing the program -----

  // Once the program is to close no further entry is executed, and the wish to quit reaches the first script.
  lemma NothingAfterClosing(lib: Library, m: Machine, inputs: seq<Input>)
    requires MachineOk(lib, m) && Running(m) && m.stack[0].state != ERROR
    requires inputs != [] && !inputs[0].alive
    ensures var r := Run(lib, m, inputs);
      && r.trace == m.trace && r.outcomes == m.outcomes
      && (|m.stack| < |inputs| ==> r.stack == [m.stack[|m.stack| - 1].(state := QUIT)])
  {
    TopKnown(lib, m);
    hide MachineOk, LoadStep, ExecuteStep, WaitStep;
    StepKeeps(lib, m, inputs[0]);
    var m' := Step(lib, m, inputs[0]);
    if m.stack[0].state == QUIT {
      NothingAfterQuit(lib, m, inputs);
      if |m.stack| < |inputs| {
        QuitUnwinds(lib, m, inputs);
      }
    } else {
      NothingAfterQuit(lib, m', inputs[1..]);
      if |m.stack| < |inputs| {
        assert m'.stack[|m'.stack| - 1].(state := QUIT) == m.stack[|m.stack| - 1].(state := QUIT);
        QuitUnwinds(lib, m', inputs[1..]);
      }
    }
  }

  // ----- Encrypted scripts -----

  // A call fails if its script is missing or cannot be loaded; a script that is not stored plainly, and whose content
  // is not found to be plain already, is deciphered before it is entered.
  lemma CallBegins(lib: Library, m: Machine, i: Input)
    requires MachineOk(lib, m) && m.stack[0].state == EXECUTE && i.alive
    requires m.stack[0].entry.Call? && m.stack[0].call == PREPARE
    ensures m.stack[0].script in lib
    ensures var f, g := m.stack[0], Step(lib, m, i).stack[0];
      if f.entry.script in lib && !i.failed then
        g == f.(call := if f.entry.stored || i.plain then ENTER else DECODE) && Step(lib, m, i).acc == 0
      else g == f.(state := ERROR)
  {
    TopKnown(lib, m);
    hide MachineOk, GotoFrom;
  }

  // Deciphering goes on until the script is there; one that is denied ends its call, and one that is broken the run.
  lemma CallDecodes(lib: Library, m: Machine, i: Input)
    requires MachineOk(lib, m) && m.stack[0].state == EXECUTE && i.alive
    requires m.stack[0].entry.Call? && m.stack[0].call == DECODE
    ensures m.stack[0].script in lib
    ensures var f, m' := m.stack[0], Step(lib, m, i);
      && (i.decoding == Working ==> m' == m)
      && (i.decoding == Opened ==> m' == WithTop(m, f.(call := ENTER)))
      && (i.decoding == Broken ==> m' == WithTop(m, f.(state := ERROR)))
      && (i.decoding == Denied ==> m'.stack == WithTop(m, f.(state := LOAD)).stack && m'.acc == 65535)
  {
    TopKnown(lib, m);
    hide MachineOk, GotoFrom;
  }

  // The top frame is not about to enter a script that was deciphered.
  predicate NotOpened(m: Machine) {
    m.stack != []
    && !(IsPending(m.stack[0]) && m.stack[0].entry.Call? && !m.stack[0].entry.stored && m.stack[0].call == ENTER)
  }

  // Scripts that were entered since some point of the record are stored plainly.
  ghost predicate OnlyStored(lib: Library, m: Machine, from: nat) {
    forall k | from <= k < |m.outcomes| && k < |m.trace| && m.outcomes[k].entered ::
      var e := m.trace[k];
      e.script in lib && lib[e.script].load(e.offset).Loaded?
      && lib[e.script].load(e.offset).entry.Call? && lib[e.script].load(e.offset).entry.stored
  }

  lemma StepOpensNothing(lib: Library, m: Machine, i: Input)
    requires MachineOk(lib, m) && Running(m) && m.stack[0].state != ERROR && |m.trace| == |m.outcomes|
    requires NotOpened(m) && !i.plain && i.decoding != Opened
    ensures m.stack[0].script in lib
    ensures NotOpened(Step(lib, m, i)) && OnlyStored(lib, Step(lib, m, i), |m.outcomes|)
  {
    TopKnown(lib, m);
    assert |m.stack| > 1 ==> m.stack[1].state == LOAD;
    hide MachineOk, Boundary, GotoFrom, ExecuteStep;
    if m.stack[0].state == EXECUTE && i.alive {
      ExecuteOpensNothing(lib, m, i);
    }
  }

  lemma ExecuteOpensNothing(lib: Library, m: Machine, i: Input)
    requires MachineOk(lib, m) && m.stack[0].state == EXECUTE && |m.trace| == |m.outcomes|
    requires NotOpened(m) && !i.plain && i.decoding != Opened
    ensures m.stack[0].script in lib
    ensures NotOpened(ExecuteStep(lib, m, i)) && OnlyStored(lib, ExecuteStep(lib, m, i), |m.outcomes|)
  {
    TopKnown(lib, m);
    TopStands(lib, m);
    hide MachineOk, Boundary, GotoFrom, Stand;
    if m.stack[0].entry.Call? {
      assert ExecuteStep(lib, m, i) == CallStep(lib, m, i);
      hide ExecuteStep;
    } else {
      hide CallStep;
    }
  }

  // As long as no content turns out to be plain or is deciphered, no encrypted script is entered.
  lemma {:induction false} NothingDeciphered(lib: Library, m: Machine, inputs: seq<Input>)
    requires MachineOk(lib, m) && |m.trace| == |m.outcomes| && NotOpened(m)
    requires forall i | i in inputs :: !i.plain && i.decoding != Opened
    ensures OnlyStored(lib, Run(lib, m, inputs), |m.outcomes|)
    decreases |inputs|
  {
    if inputs != [] && Running(m) && m.stack[0].state != ERROR {
      var i := inputs[0];
      StepOpensNothing(lib, m, i);
      RecordsOne(lib, m, i);
      StepRecords(lib, m, i);
      StepKeeps(lib, m, i);
      hide MachineOk, Step, NotOpened, EndedBy;
      var m' := Step(lib, m, i);
      NothingDeciphered(lib, m', inputs[1..]);
      RunExtends(lib, m', inputs[1..]);
    }
  }

  // ----- The handler -----

  class Handler {
    var stack: seq<Frame>
    var accumulator: word16
    ghost var trace: seq<Executed>
    ghost var outcomes: seq<Outcome>

    ghost function View(): Machine
      reads this
    {
      Machine(stack, accumulator, trace, outcomes)
    }

    constructor (name: Name)
      ensures View() == Start(name, 0)
    {
      stack, accumulator, trace, outcomes := [StartFrame(name)], 0, [], [];
    }

    method SetState(state: State)
      requires stack != []
      modifies this`stack
      ensures stack == [old(stack)[0].(state := state)] + old(stack)[1..]
    {
      stack := [stack[0].(state := state)] + stack[1..];
    }

    method Enter(name: Name)
      modifies this`stack
      ensures stack == [StartFrame(name)] + old(stack)
    {
      stack := [StartFrame(name)] + stack;
    }

    method Exit() returns (left: Frame)
      requires stack != []
      modifies this`stack
      ensures left == old(stack)[0] && stack == old(stack)[1..]
    {
      left := stack[0];
      stack := stack[1..];
    }

    // The entry is over; the record is kept for the statement of what was executed.
    method Complete(acc: word16, entered: bool)
      requires stack != []
      modifies this
      ensures View() == Completed(old(View()), old(stack)[0].offset, acc, entered)
    {
      var f := stack[0];
      accumulator, trace, outcomes := acc, trace + [Executed(f.script, f.at)], outcomes + [Outcome(acc, entered)];
      SetState(LOAD);
    }

    // Find the first entry after a label of the script that is running.
    method GotoLabel(s: Script, target: Name)
      requires stack != []
      modifies this`stack
      ensures stack == [old(stack)[0].(offset := GotoFrom(s, 0, target))] + old(stack)[1..]
    {
      var offset := 0;
      var found := false;
      while offset < s.size && !found
        invariant GotoFrom(s, 0, target) == if found then offset else GotoFrom(s, offset, target)
        decreases if offset < s.size && !found then s.size - offset else 0
      {
        match s.load(offset)
        case LoadError => break;
        case Loaded(entry, _, length) =>
          found := entry == Label(target);
          offset := offset + length;
      }
      stack := [stack[0].(offset := offset)] + stack[1..];
    }

    method HandleWait(i: Input)
      requires stack != []
      modifies this
      ensures View() == WaitStep(old(View()), i)
    {
      if i.key != 0 {
        if !i.zooms {
          Complete(i.key, false);
        }
      } else if i.tag != 0 {
        Complete(if i.pressed then i.tag else (HOVER + i.tag) % 0x1_0000, false);
      } else if HOVER < accumulator {
        Complete(HOVER, false);
      }
    }

    method HandleLoad(lib: Library)
      requires stack != [] && stack[0].script in lib
      modifies this
      ensures View() == LoadStep(lib, old(View()))
    {
      var f := stack[0];
      var s := lib[f.script];
      if s.size <= f.offset {
        SetState(STOP);
      } else {
        match s.load(f.offset)
        case LoadError => SetState(ERROR);
        case Loaded(entry, delayed, length) =>
          var wait := if entry == Blank then f.delayed else delayed;
          stack := [f.(entry := entry, at := f.offset, offset := f.offset + length, call := PREPARE, delayed := wait)]
            + stack[1..];
          SetState(if wait then DELAY else EXECUTE);
      }
    }

    method HandleCall(lib: Library, i: Input)
      requires stack != [] && stack[0].script in lib && stack[0].entry.Call?
      modifies this
      ensures View() == CallStep(lib, old(View()), i)
    {
      var f := stack[0];
      match f.call
      case PREPARE =>
        if f.entry.script !in lib || i.failed {
          SetState(ERROR);
        } else {
          accumulator := 0;
          stack := [f.(call := if f.entry.stored || i.plain then ENTER else DECODE)] + stack[1..];
        }
      case DECODE =>
        match i.decoding {
          case Working =>
          case Opened => stack := [f.(call := ENTER)] + stack[1..];
          case Denied => Complete(REFUSED, false);
          case Broken => SetState(ERROR);
        }
      case ENTER =>
        Complete(accumulator, true);
        Enter(f.entry.script);
    }

    method Execute(lib: Library, i: Input)
      requires stack != [] && stack[0].script in lib
      modifies this
      ensures View() == ExecuteStep(lib, old(View()), i)
    {
      var f := stack[0];
      var s := lib[f.script];
      match f.entry
      case Wait => SetState(WAIT);
      case Query => Complete(i.answer, false);
      case Jump(target) => Complete(accumulator, false); GotoLabel(s, target);
      case JumpIf(value, target) =>
        var jump := accumulator == value;
        Complete(accumulator, false);
        if jump {
          GotoLabel(s, target);
        }
      case Call(_, _) => HandleCall(lib, i);
      case Other =>
        if i.failed {
          SetState(ERROR);
        } else if i.done {
          Complete(accumulator, false);
        }
      case _ => Complete(accumulator, false);
    }

    method Handle(lib: Library, i: Input)
      requires stack != [] && stack[0].script in lib && stack[0].state != ERROR
      modifies this
      ensures View() == Step(lib, old(View()), i)
    {
      if stack[0].state != QUIT && !i.alive {
        SetState(QUIT);
        return;
      }
      match stack[0].state
      case STOP => var _ := Exit();
      case QUIT =>
        var _ := Exit();
        if stack != [] {
          SetState(QUIT);
        }
      case WAIT => HandleWait(i);
      case LOAD => HandleLoad(lib);
      case DELAY => if i.elapsed { SetState(EXECUTE); }
      case EXECUTE => Execute(lib, i);
    }

    // The main loop.
    method Play(lib: Library, inputs: seq<Input>)
      requires MachineOk(lib, View())
      modifies this
      ensures MachineOk(lib, old(View())) && View() == Run(lib, old(View()), inputs)
    {
      var n := 0;
      while n < |inputs| && stack[|stack| - 1].state !in {STOP, QUIT, ERROR} && stack[0].state != ERROR
        invariant n <= |inputs| && MachineOk(lib, View()) && MachineOk(lib, old(View()))
        invariant Run(lib, View(), inputs[n..]) == Run(lib, old(View()), inputs)
      {
        TopKnown(lib, View());
        StepKeeps(lib, View(), inputs[n]);
        Handle(lib, inputs[n]);
        n := n + 1;
      }
    }
  }
}
