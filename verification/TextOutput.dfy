/** Buffered text output with indentation, bundles and a path around the buffer, against a plain rendering. */
module TextOutput {
  import opened Basics

  /** Two spaces a level, as far as the string of spaces goes. */
  const MAX_INDENT: nat := 152

  function Prefix(indent: nat): seq<char> { seq(if 2 * indent < MAX_INDENT then 2 * indent else MAX_INDENT, _ => ' ') }

  // ----- the plain rendering -----

  /** A group: up to the next newline, with it and all that follow directly; how much of it the text begins with. */
  function GroupEnd(txt: seq<char>, newlines: bool): (n: nat)
    ensures n <= |txt|
  {
    if txt == [] || (newlines && txt[0] != '\n') then 0 else 1 + GroupEnd(txt[1..], newlines || txt[0] == '\n')
  }

  function EndsLine(txt: seq<char>): bool { txt != [] && txt[|txt| - 1] == '\n' }

  /** A group as it is shown: the indent comes before what starts a line. */
  function Shown(group: seq<char>, atFront: bool, indent: nat): seq<char> {
    (if atFront then Prefix(indent) else []) + group
  }

  /** The text, group by group. */
  function Render(txt: seq<char>, atFront: bool, indent: nat): seq<char>
    decreases |txt|
  {
    if txt == [] then []
    else
      var n := GroupEnd(txt, false);
      Shown(txt[..n], atFront, indent) + Render(txt[n..], EndsLine(txt[..n]), indent)
  }

  function FrontAfter(txt: seq<char>, atFront: bool): bool { if txt == [] then atFront else EndsLine(txt) }

  lemma ShownPlain(group: seq<char>, atFront: bool)
    ensures Shown(group, atFront, 0) == group
  {
  }

  lemma RenderStep(txt: seq<char>, head: seq<char>, rest: seq<char>, atFront: bool, indent: nat)
    requires txt != [] && head == txt[..GroupEnd(txt, false)] && rest == txt[GroupEnd(txt, false)..]
    ensures Render(txt, atFront, indent) == Shown(head, atFront, indent) + Render(rest, EndsLine(head), indent)
  {
  }

  /** Without indent the rendering is the text. */
  lemma {:induction false} RenderPlain(txt: seq<char>, atFront: bool)
    ensures Render(txt, atFront, 0) == txt
    decreases |txt|
  {
    if txt != [] {
      var n := GroupEnd(txt, false);
      var head, rest := txt[..n], txt[n..];
      RenderStep(txt, head, rest, atFront, 0);
      ShownPlain(head, atFront);
      RenderPlain(rest, EndsLine(head));
      assert Render(txt, atFront, 0) == head + rest == txt;
    }
  }

  lemma Slices(txt: seq<char>, i: nat, to: nat)
    requires i <= to <= |txt|
    ensures txt[i..][..to - i] == txt[i..to] && txt[i..][to - i..] == txt[to..]
  {
  }

  lemma RenderGroup(txt: seq<char>, i: nat, to: nat, atFront: bool, indent: nat)
    requires i < to <= |txt| && to == i + GroupEnd(txt[i..], false)
    ensures Render(txt[i..], atFront, indent) ==
      Shown(txt[i..to], atFront, indent) + Render(txt[to..], EndsLine(txt[i..to]), indent)
  {
    Slices(txt, i, to);
    RenderStep(txt[i..], txt[i..to], txt[to..], atFront, indent);
  }

  /** What stands for one line break or several. */
  function Breaks(n: nat): seq<char> { seq(n, _ => '\n') }

  lemma {:induction false} GroupBreaks(n: nat, rest: seq<char>)
    requires rest == [] || rest[0] != '\n'
    ensures GroupEnd(Breaks(n) + rest, true) == n
  {
    if n > 0 {
      assert (Breaks(n) + rest)[1..] == Breaks(n - 1) + rest;
      GroupBreaks(n - 1, rest);
    }
  }

  lemma {:induction false} GroupLine(line: seq<char>, n: nat, rest: seq<char>)
    requires '\n' !in line && n > 0 && (rest == [] || rest[0] != '\n')
    ensures GroupEnd(line + Breaks(n) + rest, false) == |line| + n
  {
    var txt := line + Breaks(n) + rest;
    if line == [] {
      assert txt[1..] == Breaks(n - 1) + rest;
      GroupBreaks(n - 1, rest);
    } else {
      assert txt[1..] == line[1..] + Breaks(n) + rest;
      GroupLine(line[1..], n, rest);
    }
  }

  /**
   * A line with the breaks behind it, and then other text: two spaces a level (and at most 152) before the line where
   * one starts, none before a continued line and none before the empty lines that follow.
   */
  lemma RenderLine(line: seq<char>, n: nat, rest: seq<char>, atFront: bool, indent: nat)
    requires '\n' !in line && n > 0 && (rest == [] || rest[0] != '\n')
    ensures Render(line + Breaks(n) + rest, atFront, indent) ==
      seq(if !atFront then 0 else if indent <= 76 then 2 * indent else 152, _ => ' ')
      + (line + Breaks(n)) + Render(rest, true, indent)
  {
    var head, txt := line + Breaks(n), line + Breaks(n) + rest;
    GroupLine(line, n, rest);
    assert head == txt[..|line| + n] && rest == txt[|line| + n..];
    RenderStep(txt, head, rest, atFront, indent);
    assert head[|head| - 1] == '\n';
  }

  /** Text without a line break is shown as it is, behind the spaces if it starts a line. */
  lemma RenderPart(part: seq<char>, atFront: bool, indent: nat)
    requires '\n' !in part && part != []
    ensures Render(part, atFront, indent) ==
      seq(if !atFront then 0 else if indent <= 76 then 2 * indent else 152, _ => ' ') + part
  {
    GroupPart(part);
    RenderStep(part, part, [], atFront, indent);
  }

  lemma {:induction false} GroupPart(part: seq<char>)
    requires '\n' !in part
    ensures GroupEnd(part, false) == |part|
  {
    if part != [] { GroupPart(part[1..]); }
  }

  lemma RenderLines(txt: seq<char>, i: nat, last: nat)
    requires i < last <= |txt|
    ensures Render(txt[i..], true, 0) == txt[i..last] + Render(txt[last..], true, 0)
  {
    RenderPlain(txt[i..], true);
    RenderPlain(txt[last..], true);
    assert txt[i..] == txt[i..last] + txt[last..];
  }

  // ----- the object -----

  class BufferedTextOutput {
    var buffer: seq<char>
    var atFront: bool
    var indent: nat
    var bundle: nat
    /** What `writeLines` was given so far, and everything that was printed, written or waiting. */
    ghost var written: seq<char>
    ghost var stream: seq<char>

    /** Outside bundles nothing waits at the start of a line. */
    ghost predicate Valid()
      reads this
    {
      && stream == written + buffer
      && (bundle == 0 && atFront ==> buffer == [])
      && (buffer != [] ==> atFront == EndsLine(buffer))
    }

    constructor ()
      ensures Valid() && stream == [] && atFront && indent == 0 && bundle == 0
    {
      buffer, atFront, indent, bundle, written, stream := [], true, 0, 0, [], [];
    }

    /** Only whole lines are ever written. */
    method WriteLines(lines: seq<char>)
      requires EndsLine(lines)
      modifies `written
      ensures written == old(written) + lines
    {
      written := written + lines;
    }

    /** The buffer goes out and is empty. */
    method Flush()
      requires stream == written + buffer && EndsLine(buffer)
      modifies this
      ensures Valid() && stream == old(stream) && atFront && buffer == []
      ensures indent == old(indent) && bundle == old(bundle)
    {
      WriteLines(buffer);
      buffer, atFront := [], true;
    }

    /** The end of the group that starts at `from`. */
    method NextGroup(txt: seq<char>, from: nat) returns (to: nat)
      requires from < |txt|
      ensures from < to <= |txt| && to == from + GroupEnd(txt[from..], false)
    {
      to := from;
      ghost var end := from + GroupEnd(txt[from..], false);
      while to < |txt| && txt[to] != '\n'
        invariant from <= to <= |txt| && end == to + GroupEnd(txt[to..], false)
      {
        assert txt[to..][1..] == txt[to + 1..];
        to := to + 1;
      }
      while to < |txt| && txt[to] == '\n'
        invariant from <= to <= |txt| && end == to + GroupEnd(txt[to..], true)
      {
        assert txt[to..][1..] == txt[to + 1..];
        to := to + 1;
      }
    }

    /** The end of the last whole line from `from` on, given that `to` ends one. */
    method LastLine(txt: seq<char>, from: nat, to: nat) returns (last: nat)
      requires from < to <= |txt| && txt[to - 1] == '\n'
      ensures to <= last <= |txt| && txt[last - 1] == '\n'
    {
      last := to;
      var i := to;
      while i < |txt|
        invariant to <= last <= i <= |txt| && txt[last - 1] == '\n'
      {
        if txt[i] == '\n' { last := i + 1; }
        i := i + 1;
      }
    }

    /** A group through the buffer, written out when it ends a line outside bundles. */
    method PrintGroup(group: seq<char>)
      requires Valid() && group != []
      modifies this
      ensures Valid() && stream == old(stream) + Shown(group, old(atFront), indent)
      ensures atFront == EndsLine(group) && indent == old(indent) && bundle == old(bundle)
    {
      ghost var shown := Shown(group, atFront, indent);
      if atFront && indent > 0 { buffer := buffer + Prefix(indent); }
      buffer := buffer + group;
      stream := stream + shown;
      assert stream == written + buffer;
      atFront := group[|group| - 1] == '\n';
      if atFront && bundle == 0 { Flush(); }
    }

    /** Whole lines around the buffer: the fast path, taken where nothing waits in it. */
    method PrintLines(txt: seq<char>, from: nat, to: nat) returns (last: nat, ghost out: seq<char>)
      requires Valid() && from < to <= |txt| && txt[to - 1] == '\n' && atFront && bundle == 0 && indent == 0
      modifies `written, `stream
      ensures Valid() && to <= last <= |txt| && txt[last - 1] == '\n'
      ensures stream == old(stream) + out
      ensures Render(txt[from..], true, 0) == out + Render(txt[last..], true, 0)
    {
      last := LastLine(txt, from, to);
      RenderLines(txt, from, last);
      out := txt[from..last];
      WriteLines(txt[from..last]);
      stream := stream + out;
    }

    method PrintBuffered(txt: seq<char>, from: nat, to: nat) returns (ghost out: seq<char>)
      requires Valid() && from < to <= |txt| && to == from + GroupEnd(txt[from..], false)
      modifies this
      ensures Valid() && atFront == (txt[to - 1] == '\n') && indent == old(indent) && bundle == old(bundle)
      ensures stream == old(stream) + out
      ensures Render(txt[from..], old(atFront), indent) == out + Render(txt[to..], atFront, indent)
    {
      out := Shown(txt[from..to], atFront, indent);
      RenderGroup(txt, from, to, atFront, indent);
      PrintGroup(txt[from..to]);
    }

    /** One round of `print`; `out` is what it adds to the stream. */
    method PrintNext(txt: seq<char>, from: nat) returns (to: nat, ghost out: seq<char>)
      requires Valid() && from < |txt|
      modifies this
      ensures Valid() && from < to <= |txt| && atFront == (txt[to - 1] == '\n')
      ensures indent == old(indent) && bundle == old(bundle)
      ensures stream == old(stream) + out
      ensures Render(txt[from..], old(atFront), indent) == out + Render(txt[to..], atFront, indent)
    {
      to := NextGroup(txt, from);
      if atFront && indent == 0 && txt[to - 1] == '\n' && bundle == 0 {
        to, out := PrintLines(txt, from, to);
      } else {
        out := PrintBuffered(txt, from, to);
      }
    }

    /** `print`: the stream goes on as the plain rendering says. */
    method Print(txt: seq<char>)
      requires Valid()
      modifies this
      ensures Valid() && stream == old(stream) + Render(txt, old(atFront), indent)
      ensures written + buffer == old(written + buffer) + Render(txt, old(atFront), indent)
      ensures atFront == FrontAfter(txt, old(atFront)) && indent == old(indent) && bundle == old(bundle)
    {
      var i := 0;
      assert txt[0..] == txt;
      while i < |txt|
        invariant i <= |txt| && Valid() && indent == old(indent) && bundle == old(bundle)
        invariant stream + Render(txt[i..], atFront, indent) == old(stream) + Render(txt, old(atFront), indent)
        invariant atFront == if i == 0 then old(atFront) else txt[i - 1] == '\n'
      {
        ghost var before, out := stream, [];
        i, out := PrintNext(txt, i);
        Assoc(before, out, Render(txt[i..], atFront, indent));
      }
    }

    method MoveIndent(delta: int)
      requires Valid()
      modifies `indent
      ensures Valid() && stream == old(stream) && indent == if old(indent) + delta < 0 then 0 else old(indent) + delta
    {
      indent := if indent + delta < 0 then 0 else indent + delta;
    }

    method PushBundle()
      requires Valid()
      modifies `bundle
      ensures Valid() && stream == old(stream) && bundle == old(bundle) + 1
    {
      bundle := bundle + 1;
    }

    /** The end of the last bundle writes what is complete. */
    method PopBundle()
      requires Valid()
      modifies this
      ensures Valid() && stream == old(stream) && bundle == (if old(bundle) == 0 then 0 else old(bundle) - 1)
      ensures atFront == old(atFront) && indent == old(indent)
    {
      if bundle > 0 { bundle := bundle - 1; }
      if bundle == 0 && |buffer| > 0 && atFront { Flush(); }
    }
  }

  datatype Op = Text(txt: seq<char>) | Move(delta: int) | Push | Pop

  /** The text a sequence of operations stands for: bundles do not show in it. */
  function Expected(ops: seq<Op>, atFront: bool, indent: nat): seq<char>
    decreases |ops|
  {
    if ops == [] then []
    else match ops[0]
      case Text(txt) => Render(txt, atFront, indent) + Expected(ops[1..], FrontAfter(txt, atFront), indent)
      case Move(delta) => Expected(ops[1..], atFront, if indent + delta < 0 then 0 else indent + delta)
      case _ => Expected(ops[1..], atFront, indent)
  }

  method Perform(o: BufferedTextOutput, op: Op)
    requires o.Valid()
    modifies o
    ensures o.Valid() && o.atFront == (if op.Text? then FrontAfter(op.txt, old(o.atFront)) else old(o.atFront))
    ensures o.indent ==
      if op.Move? then (if old(o.indent) + op.delta < 0 then 0 else old(o.indent) + op.delta) else old(o.indent)
    ensures o.stream == old(o.stream) + if op.Text? then Render(op.txt, old(o.atFront), old(o.indent)) else []
  {
    match op
    case Text(txt) => o.Print(txt);
    case Move(delta) => o.MoveIndent(delta);
    case Push => o.PushBundle();
    case Pop => o.PopBundle();
  }

  /** Over any sequence of operations what is written and what still waits is the expected text. */
  method Replay(ops: seq<Op>) returns (o: BufferedTextOutput)
    ensures o.Valid() && o.written + o.buffer == Expected(ops, true, 0)
  {
    o := new BufferedTextOutput();
    var i := 0;
    assert ops[0..] == ops;
    while i < |ops|
      invariant i <= |ops| && o.Valid() && fresh(o)
      invariant o.stream + Expected(ops[i..], o.atFront, o.indent) == Expected(ops, true, 0)
    {
      assert ops[i..][0] == ops[i] && ops[i..][1..] == ops[i + 1..];
      ghost var before, out := o.stream, if ops[i].Text? then Render(ops[i].txt, o.atFront, o.indent) else [];
      Perform(o, ops[i]);
      i := i + 1;
      Assoc(before, out, Expected(ops[i..], o.atFront, o.indent));
    }
  }
}
