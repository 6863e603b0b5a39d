/** The call stack kept for error messages and the one buffer that all live frames write their parameters to. */
module StackTrace {
  const STACK_TRACE_MAX: nat := 128

  /** Longest parameter value, its terminator included. */
  const STACK_TRACE_PARAM_MAX: nat := 4096

  const BUFFER_SIZE: nat := 32 * 1024

  /** Where the reserve starts in which a value that does not fit is formatted. */
  const RESERVE: nat := BUFFER_SIZE - STACK_TRACE_PARAM_MAX

  const NUL: char := '\0'

  datatype Level = Off | Assert | Error | Warn | Info | Detail | Debug | Trace

  function Rank(l: Level): nat {
    match l
    case Off => 0
    case Assert => 1
    case Error => 2
    case Warn => 3
    case Info => 4
    case Detail => 5
    case Debug => 6
    case Trace => 7
  }

  /** `param` is the offset of the frame's text in the buffer and `paramSize` its length. */
  datatype Frame = Frame(name: string, level: Level, tryDepth: nat, overflow: bool, log: bool, param: nat,
    paramSize: nat)

  function End(f: Frame): nat {
    f.param + f.paramSize
  }

  /** A frame starts right behind the terminator of the one below it. */
  ghost predicate Behind(s: seq<Frame>, i: nat)
    requires i < |s|
  {
    s[i].param == if i == 0 then 0 else End(s[i - 1]) + 1
  }

  /** A text and its terminator stay below the reserve. */
  ghost predicate BelowReserve(f: Frame) {
    f.paramSize > 0 ==> End(f) + 1 <= RESERVE
  }

  ghost predicate FramesOk(s: seq<Frame>) {
    |s| < STACK_TRACE_MAX && forall i: nat {:trigger Behind(s, i)} :: i < |s| ==> Behind(s, i) && BelowReserve(s[i])
  }

  lemma FramesPrefix(s: seq<Frame>, n: nat)
    requires FramesOk(s) && n <= |s|
    ensures FramesOk(s[..n])
  {
    forall i: nat | i < n ensures Behind(s[..n], i) && BelowReserve(s[..n][i]) {
      assert Behind(s, i);
    }
  }

  lemma FramesPush(s: seq<Frame>, f: Frame)
    requires FramesOk(s) && |s| < STACK_TRACE_MAX - 1 && f.paramSize == 0
    requires f.param == if s == [] then 0 else End(s[|s| - 1]) + 1
    ensures FramesOk(s + [f])
  {
    forall i: nat | i < |s| ensures Behind(s + [f], i) && BelowReserve((s + [f])[i]) {
      assert Behind(s, i);
    }
  }

  lemma FramesTop(s: seq<Frame>, f: Frame)
    requires FramesOk(s) && s != [] && f.param == s[|s| - 1].param && BelowReserve(f)
    ensures FramesOk(s[|s| - 1 := f])
  {
    var t := s[|s| - 1 := f];
    forall i: nat | i < |t| ensures Behind(t, i) && BelowReserve(t[i]) {
      assert Behind(s, i);
    }
  }

  /** Texts of different frames never share a byte, terminators included. */
  lemma {:induction false} FramesDisjoint(s: seq<Frame>, i: nat, j: nat)
    requires FramesOk(s) && i < j < |s|
    ensures End(s[i]) < s[j].param
    decreases j
  {
    assert Behind(s, j);
    if i < j - 1 {
      FramesDisjoint(s, i, j - 1);
    }
  }

  /** Even a frame without text starts inside the buffer. */
  lemma {:induction false} FrameInside(s: seq<Frame>, i: nat)
    requires FramesOk(s) && i < |s|
    ensures s[i].param <= RESERVE + i && End(s[i]) < BUFFER_SIZE
  {
    assert Behind(s, i);
    if i > 0 {
      FrameInside(s, i - 1);
      assert Behind(s, i - 1);
    }
  }

  ghost function SliceOf(s: seq<Frame>, b: string, i: nat): string
    requires FramesOk(s) && |b| == BUFFER_SIZE && i < |s|
  {
    assert Behind(s, i);
    if s[i].paramSize == 0 then "" else b[s[i].param..End(s[i]) + 1]
  }

  /** Writes behind the start of the top frame or in the reserve leave the texts of the others alone. */
  lemma OutersSame(s: seq<Frame>, a: string, b: string)
    requires FramesOk(s) && s != [] && |a| == |b| == BUFFER_SIZE
    requires forall k :: 0 <= k < RESERVE && k < s[|s| - 1].param ==> a[k] == b[k]
    ensures forall i: nat {:trigger SliceOf(s, b, i)} :: i < |s| - 1 ==> SliceOf(s, a, i) == SliceOf(s, b, i)
  {
    forall i: nat | i < |s| - 1 ensures SliceOf(s, a, i) == SliceOf(s, b, i) {
      assert Behind(s, i);
      FramesDisjoint(s, i, |s| - 1);
    }
  }

  /** A changed top frame leaves them alone too. */
  lemma OutersKept(s: seq<Frame>, t: seq<Frame>, b: string)
    requires FramesOk(s) && FramesOk(t) && s != [] && |t| >= |s| && |b| == BUFFER_SIZE && t[..|s| - 1] == s[..|s| - 1]
    ensures forall i: nat {:trigger SliceOf(t, b, i)} :: i < |s| - 1 ==> SliceOf(s, b, i) == SliceOf(t, b, i)
  {
    forall i: nat | i < |s| - 1 ensures SliceOf(s, b, i) == SliceOf(t, b, i) {
      assert s[i] == s[..|s| - 1][i] == t[..|s| - 1][i] == t[i];
    }
  }

  /** Is there room for one more parameter of this name? */
  predicate Fits(f: Frame, name: string) {
    End(f) + |name| + 4 <= BUFFER_SIZE - STACK_TRACE_PARAM_MAX * 2
  }

  /** What a parameter adds in front of its value. */
  function Heading(f: Frame, name: string): string {
    (if f.paramSize != 0 then ", " else "") + name + ": "
  }

  /** The first parameter of a frame is headed by its name and a colon, each further one by a comma as well; and it fits
      as long as heading and value leave the two last places for values free. */
  lemma HeadingText(f: Frame, name: string)
    ensures f.paramSize == 0 ==> Heading(f, name) == name + ": "
    ensures f.paramSize > 0 ==> Heading(f, name) == ", " + name + ": "
    ensures Fits(f, name) <==> f.param + f.paramSize + |name| + 4 <= 32768 - 2 * 4096
  {
  }

  lemma HeadingParts(text: string, f: Frame, name: string)
    ensures text + Heading(f, name) == (if f.paramSize != 0 then text + ", " else text) + name + ": "
  {
  }

  /** The log levels in order: each lets through less than the next. */
  lemma LevelsInOrder()
    ensures var levels := [Off, Assert, Error, Warn, Info, Detail, Debug, Trace];
      forall i, j :: 0 <= i < j < |levels| ==> Rank(levels[i]) < Rank(levels[j])
  {
  }

  /** The frames left by a clean: those up to the last one pushed below the try depth. */
  function Left(s: seq<Frame>, tryDepth: nat): (n: nat)
    ensures n <= |s| && (n > 0 ==> s[n - 1].tryDepth < tryDepth)
    ensures forall i :: n <= i < |s| ==> s[i].tryDepth >= tryDepth
  {
    if s == [] || s[|s| - 1].tryDepth < tryDepth then |s|
    else Left(s[..|s| - 1], tryDepth)
  }

  /** Try depths grow along the stack when every frame is left before the block it was pushed in. */
  ghost predicate Nested(s: seq<Frame>) {
    forall i, j :: 0 <= i < j < |s| ==> s[i].tryDepth <= s[j].tryDepth
  }

  /** A clean leaves exactly the frames below the try depth if and only if no deeper frame lies under one of
      them; nesting gives that. */
  lemma LeftExactIff(s: seq<Frame>, tryDepth: nat)
    ensures (forall i :: 0 <= i < |s| ==> (i < Left(s, tryDepth) <==> s[i].tryDepth < tryDepth))
      <==> (forall i, j :: 0 <= i < j < |s| && s[j].tryDepth < tryDepth ==> s[i].tryDepth < tryDepth)
    ensures Nested(s) ==> forall i :: 0 <= i < |s| ==> (i < Left(s, tryDepth) <==> s[i].tryDepth < tryDepth)
  {
    var n := Left(s, tryDepth);
    if forall i, j :: 0 <= i < j < |s| && s[j].tryDepth < tryDepth ==> s[i].tryDepth < tryDepth {
      forall i | 0 <= i < |s| ensures i < n <==> s[i].tryDepth < tryDepth {
        if i + 1 < n {
          assert s[n - 1].tryDepth < tryDepth;
        }
      }
    }
  }

  class Stack {
    var stackSize: nat
    const stack: array<Frame>
    const buffer: array<char>

    ghost predicate Valid()
      reads this, stack
    {
      stack.Length == STACK_TRACE_MAX && buffer.Length == BUFFER_SIZE && stackSize < STACK_TRACE_MAX
        && FramesOk(Frames())
    }

    ghost function Frames(): seq<Frame>
      reads this, stack
      requires stackSize <= stack.Length
    {
      stack[..stackSize]
    }

    /** The text of a frame together with its terminator. */
    ghost function Slice(i: nat): string
      reads this, stack, buffer
      requires Valid() && i < stackSize
    {
      SliceOf(Frames(), buffer[..], i)
    }

    constructor ()
      ensures Valid() && fresh(stack) && fresh(buffer) && Frames() == []
    {
      stackSize := 0;
      stack := new Frame[STACK_TRACE_MAX](_ => Frame("", Off, 0, false, false, 0, 0));
      buffer := new char[BUFFER_SIZE](_ => NUL);
    }

    /** Pushes a frame behind the text of the top one; it inherits a higher log level. */
    method Push(name: string, level: Level, tryDepth: nat) returns (out: Level)
      requires Valid() && stackSize < STACK_TRACE_MAX - 1
      modifies this`stackSize, stack
      ensures Valid() && stackSize == old(stackSize) + 1 && Frames()[..stackSize - 1] == old(Frames())
      ensures var f := Frames()[stackSize - 1];
        f.name == name && f.tryDepth == tryDepth && f.paramSize == 0 && !f.overflow && !f.log && f.level == out
      ensures out == if stackSize > 1 && Rank(level) < Rank(Frames()[stackSize - 2].level)
                     then Frames()[stackSize - 2].level
                     else level
      ensures forall i: nat {:trigger Slice(i)} :: i < stackSize - 1 ==> Slice(i) == old(Slice(i))
    {
      hide FramesOk;
      var param := 0;
      out := level;
      if stackSize > 0 {
        var prior := stack[stackSize - 1];
        param := prior.param + prior.paramSize + 1;
        if Rank(level) < Rank(prior.level) {
          out := prior.level;
        }
      }
      stack[stackSize] := Frame(name, out, tryDepth, false, false, param, 0);
      stackSize := stackSize + 1;
      FramesPush(old(Frames()), stack[stackSize - 1]);
      assert Frames() == old(Frames()) + [stack[stackSize - 1]];
    }

    method Pop()
      requires Valid() && stackSize > 0
      modifies this`stackSize
      ensures Valid() && Frames() == old(Frames())[..old(stackSize) - 1]
      ensures forall i: nat {:trigger Slice(i)} :: i < stackSize ==> Slice(i) == old(Slice(i))
    {
      hide FramesOk;
      FramesPrefix(Frames(), stackSize - 1);
      stackSize := stackSize - 1;
      assert Frames() == old(Frames())[..stackSize];
    }

    method ParamLog()
      requires Valid() && stackSize > 0
      modifies stack
      ensures Valid() && Frames() == old(Frames())[stackSize - 1 := old(Frames())[stackSize - 1].(log := true)]
      ensures forall i: nat {:trigger Slice(i)} :: i < stackSize ==> Slice(i) == old(Slice(i))
    {
      assert Behind(Frames(), stackSize - 1);
      stack[stackSize - 1] := stack[stackSize - 1].(log := true);
      FramesTop(old(Frames()), stack[stackSize - 1]);
      assert Frames() == old(Frames())[stackSize - 1 := stack[stackSize - 1]];
    }

    /** Copies characters into the buffer. */
    method Put(at: nat, text: string)
      requires at + |text| <= buffer.Length
      modifies buffer
      ensures buffer[at..at + |text|] == text
      ensures forall i :: 0 <= i < buffer.Length && !(at <= i < at + |text|) ==> buffer[i] == old(buffer[i])
    {
      var k := 0;
      while k < |text|
        invariant k <= |text|
        invariant forall i :: 0 <= i < k ==> buffer[at + i] == text[i]
        invariant forall i :: 0 <= i < buffer.Length && !(at <= i < at + k) ==> buffer[i] == old(buffer[i])
      {
        buffer[at + k] := text[k];
        k := k + 1;
      }
    }

    /** Appends to a text that ends at `to`. */
    method Append(ghost from: nat, to: nat, text: string)
      requires from <= to && to + |text| <= buffer.Length
      modifies buffer
      ensures buffer[from..to + |text|] == old(buffer[from..to]) + text
      ensures forall i :: 0 <= i < buffer.Length && !(to <= i < to + |text|) ==> buffer[i] == old(buffer[i])
    {
      Put(to, text);
      assert buffer[from..to + |text|] == buffer[from..to] + buffer[to..to + |text|];
    }

    /** Appends a text and its terminator. */
    method AppendZ(ghost from: nat, to: nat, text: string)
      requires from <= to && to + |text| < buffer.Length
      modifies buffer
      ensures buffer[from..to + |text|] == old(buffer[from..to]) + text && buffer[to + |text|] == NUL
      ensures forall i :: 0 <= i < buffer.Length && !(to <= i <= to + |text|) ==> buffer[i] == old(buffer[i])
    {
      Put(to, text + [NUL]);
      ghost var written := buffer[to..to + |text| + 1];
      assert written[|text|] == NUL && written[..|text|] == text;
      assert buffer[to..to + |text|] == written[..|text|];
      assert buffer[from..to + |text|] == buffer[from..to] + buffer[to..to + |text|];
    }

    ghost function Top(): Frame
      reads this, stack
      requires 0 < stackSize <= stack.Length
    {
      stack[stackSize - 1]
    }

    /** The text of a frame. */
    ghost function Text(i: nat): string
      reads this, stack, buffer
      requires Valid() && i < stackSize
    {
      FrameInside(Frames(), i);
      buffer[stack[i].param..End(stack[i])]
    }

    /** Outer frames end before the top one starts, and before the reserve. */
    lemma OutersBelow(i: nat)
      requires Valid() && i < stackSize
      ensures i < stackSize - 1 ==> End(stack[i]) + 1 <= stack[stackSize - 1].param
      ensures BelowReserve(stack[i]) && End(stack[i]) < BUFFER_SIZE
    {
      assert Behind(Frames(), i);
      FrameInside(Frames(), i);
      if i < stackSize - 1 {
        FramesDisjoint(Frames(), i, stackSize - 1);
      }
    }

    /** Updates the top frame in place. */
    method SetTop(f: Frame)
      requires Valid() && stackSize > 0 && f.param == stack[stackSize - 1].param && BelowReserve(f)
      modifies stack
      ensures Valid() && Frames() == old(Frames())[stackSize - 1 := f] && Top() == f
      ensures Frames()[..stackSize - 1] == old(Frames())[..stackSize - 1]
    {
      hide FramesOk, SliceOf;
      FramesTop(Frames(), f);
      stack[stackSize - 1] := f;
      assert Frames() == old(Frames())[stackSize - 1 := f];
      OutersKept(old(Frames()), Frames(), buffer[..]);
    }

    /** Writes comma, name and colon behind the text of the top frame. */
    method WriteHeading(name: string) returns (size: nat)
      requires Valid() && stackSize > 0 && Fits(Top(), name)
      modifies buffer
      ensures Valid() && size == Top().paramSize + |Heading(Top(), name)|
      ensures buffer[Top().param..Top().param + size] == old(Text(stackSize - 1)) + Heading(Top(), name)
      ensures forall i: nat {:trigger Slice(i)} :: i < stackSize - 1 ==> Slice(i) == old(Slice(i))
    {
      hide FramesOk, SliceOf;
      var f := stack[stackSize - 1];
      size := f.paramSize;
      ghost var text := buffer[f.param..f.param + size];
      if size != 0 {
        Append(f.param, f.param + size, ", ");
        size := size + 2;
      }
      AppendZ(f.param, f.param + size, name);
      size := size + |name|;
      Append(f.param, f.param + size, ": ");
      size := size + 2;
      HeadingParts(text, f, name);
      OutersSame(Frames(), old(buffer[..]), buffer[..]);
    }

    /** Finds the place for the next parameter of the top frame and writes its heading; a parameter that does
        not fit is sent to the reserve. */
    method ParamBuffer(name: string) returns (at: nat)
      requires Valid() && stackSize > 0
      modifies stack, buffer
      ensures Valid() && Frames()[..stackSize - 1] == old(Frames())[..stackSize - 1]
      ensures Top() == if Fits(old(Top()), name)
                       then old(Top()).(paramSize := old(Top()).paramSize + |Heading(old(Top()), name)|)
                       else old(Top()).(overflow := true)
      ensures at == if Fits(old(Top()), name) then End(Top()) else RESERVE
      ensures Fits(old(Top()), name) ==>
                at <= RESERVE - STACK_TRACE_PARAM_MAX
                  && Text(stackSize - 1) == old(Text(stackSize - 1)) + Heading(old(Top()), name)
      ensures !Fits(old(Top()), name) ==> buffer[..] == old(buffer[..])
      ensures forall i: nat {:trigger Slice(i)} :: i < stackSize - 1 ==> Slice(i) == old(Slice(i))
    {
      hide FramesOk;
      var f := stack[stackSize - 1];
      OutersBelow(stackSize - 1);
      if f.param + f.paramSize + |name| + 4 > BUFFER_SIZE - STACK_TRACE_PARAM_MAX * 2 {
        SetTop(f.(overflow := true));
        return BUFFER_SIZE - STACK_TRACE_PARAM_MAX;
      }
      var size := WriteHeading(name);
      label Written:
      SetTop(f.(paramSize := size));
      forall i: nat | i < stackSize - 1 ensures Slice(i) == old(Slice(i)) {
        assert Slice(i) == old@Written(Slice(i));
      }
      at := f.param + size;
    }

    /** Adds the size of a formatted value. */
    method ParamAdd(size: nat)
      requires Valid() && stackSize > 0
      requires !Top().overflow ==> End(Top()) + size < RESERVE
      modifies stack
      ensures Valid() && Frames()[..stackSize - 1] == old(Frames())[..stackSize - 1]
      ensures Top() == if old(Top()).overflow then old(Top()) else old(Top()).(paramSize := old(Top()).paramSize + size)
      ensures forall i: nat {:trigger Slice(i)} :: i < stackSize - 1 ==> Slice(i) == old(Slice(i))
    {
      hide FramesOk;
      var f := stack[stackSize - 1];
      if !f.overflow {
        SetTop(f.(paramSize := f.paramSize + size));
      }
    }

    /** Formats a value and its terminator at the place given for it. */
    method FormatValue(at: nat, value: string)
      requires Valid() && stackSize > 0 && |value| <= STACK_TRACE_PARAM_MAX - 1
      requires at == RESERVE || (at == End(Top()) && at <= RESERVE - STACK_TRACE_PARAM_MAX)
      modifies buffer
      ensures Valid()
      ensures at < RESERVE ==>
                buffer[Top().param..at + |value|] == old(Text(stackSize - 1)) + value && buffer[at + |value|] == NUL
      ensures at == RESERVE ==> buffer[..RESERVE] == old(buffer[..RESERVE])
      ensures forall i: nat {:trigger Slice(i)} :: i < stackSize - 1 ==> Slice(i) == old(Slice(i))
    {
      hide FramesOk, SliceOf;
      ghost var from := if at == RESERVE then at else Top().param;
      AppendZ(from, at, value);
      OutersSame(Frames(), old(buffer[..]), buffer[..]);
    }

    /** One parameter of the top frame: heading, value and terminator. No byte of an outer frame changes, and
        as long as nothing overflowed the text is the old one followed by the new parameter. */
    method AddParam(name: string, value: string)
      requires Valid() && stackSize > 0 && |value| <= STACK_TRACE_PARAM_MAX - 1
      modifies stack, buffer
      ensures Valid() && Frames()[..stackSize - 1] == old(Frames())[..stackSize - 1]
      ensures Top().overflow <==> old(Top()).overflow || !Fits(old(Top()), name)
      ensures Top().param == old(Top()).param && Top().name == old(Top()).name && Top().level == old(Top()).level
        && Top().log == old(Top()).log && Top().tryDepth == old(Top()).tryDepth
      ensures !Top().overflow ==>
                Text(stackSize - 1) == old(Text(stackSize - 1)) + Heading(old(Top()), name) + value
                && End(Top()) < BUFFER_SIZE && buffer[End(Top())] == NUL
      ensures !Fits(old(Top()), name) ==>
        Top().paramSize == old(Top()).paramSize && buffer[..RESERVE] == old(buffer[..RESERVE])
      ensures Fits(old(Top()), name) ==> Top().paramSize == old(Top()).paramSize + |Heading(old(Top()), name)|
                                                            + (if Top().overflow then 0 else |value|)
      ensures forall i: nat {:trigger Slice(i)} :: i < stackSize - 1 ==> Slice(i) == old(Slice(i))
    {
      hide FramesOk, Heading;
      var at := ParamBuffer(name);
      FormatValue(at, value);
      ParamAdd(|value|);
      OutersBelow(stackSize - 1);
    }

    /** What is shown for a frame. */
    method Param(i: nat) returns (text: string)
      requires Valid() && i < stackSize
      ensures text == if !stack[i].log
                      then (if stack[i].level == Trace then "trace" else "debug") + " log level required for parameters"
                      else if stack[i].overflow then "buffer full - parameters not available"
                      else if stack[i].paramSize == 0 then "void"
                      else Text(i)
    {
      var f := stack[i];
      if f.log {
        if f.overflow {
          return "buffer full - parameters not available";
        }
        if f.paramSize == 0 {
          return "void";
        }
        FrameInside(Frames(), i);
        return buffer[f.param..f.param + f.paramSize];
      }
      text := (if f.level == Trace then "trace" else "debug") + " log level required for parameters";
    }

    /** Pops what was pushed at the try depth or deeper. */
    method Clean(tryDepth: nat)
      requires Valid()
      modifies this`stackSize
      ensures Valid() && Frames() == old(Frames())[..Left(old(Frames()), tryDepth)]
      ensures forall i: nat {:trigger Slice(i)} :: i < stackSize ==> Slice(i) == old(Slice(i))
    {
      hide FramesOk, Slice;
      ghost var all := Frames();
      while stackSize > 0 && stack[stackSize - 1].tryDepth >= tryDepth
        invariant Valid() && stackSize <= old(stackSize)
        invariant Frames() == all[..stackSize]
        invariant Left(Frames(), tryDepth) == Left(all, tryDepth)
        invariant forall i: nat {:trigger Slice(i)} :: i < stackSize ==> Slice(i) == old(Slice(i))
      {
        ghost var frames := Frames();
        Pop();
        assert Frames() == frames[..|frames| - 1];
      }
    }
  }
}
