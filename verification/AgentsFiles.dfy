/** A repo's AGENTS.md and CLAUDE.md: checked for anfra's block and its import, and given them
    (internal/agents/agentsmd.go). */
module AgentsFiles {
  import opened Options
  import opened AgentsBlock

  const IMPORT := "@AGENTS.md"

  /** What a path holds: a file; AGENTS.md by another name; or what is neither read nor written. */
  datatype File = Missing | Regular(text: string) | LinkToAgents | Refused

  datatype BlockState = BlockMissing | BlockOutdated | BlockUpToDate
  datatype Block = Block(state: BlockState, hasClaudeMD: bool, noImport: bool)
  datatype Outcome = Fine | Failed | ImportFailed

  /** How writing a file goes: it is written; it fails untouched; or it fails with so much of the text in it,
      what it held before being gone. */
  datatype Write = Written | NotStarted | CutShort(n: nat)

  function After(before: File, text: string, w: Write): File {
    match w
    case Written => Regular(text)
    case NotStarted => before
    case CutShort(n) => Regular(if n < |text| then text[..n] else text)
  }

  predicate IsSpace(c: char) {
    c in "\t\n\U{000B}\U{000C}\r \U{0085}\U{00A0}\U{1680}\U{2028}\U{2029}\U{202F}\U{205F}\U{3000}" || '\U{2000}' <= c <= '\U{200A}'
  }

  function TrimLeft(s: string): (t: string)
    ensures |t| <= |s|
  {
    if s != "" && IsSpace(s[0]) then TrimLeft(s[1..]) else s
  }

  function Trim(s: string): string
    decreases |s|
  {
    var t := TrimLeft(s);
    if t != "" && IsSpace(t[|t| - 1]) then Trim(t[..|t| - 1]) else t
  }

  function Lines(s: string): (lines: seq<string>)
    ensures lines != []
  {
    if s == "" then [""]
    else
      var rest := Lines(s[1..]);
      if s[0] == '\n' then [""] + rest else [[s[0]] + rest[0]] + rest[1..]
  }

  predicate HasLine(s: string, line: string) {
    exists i | 0 <= i < |Lines(s)| :: Trim(Lines(s)[i]) == line
  }

  lemma LinesStep(c: char, s: string)
    ensures Lines([c] + s) == if c == '\n' then [""] + Lines(s) else [[c] + Lines(s)[0]] + Lines(s)[1..]
  {
    assert ([c] + s)[1..] == s;
  }

  lemma LinesOfNothing()
    ensures Lines("") == [""]
  {
  }

  lemma {:induction false} LinesApart(a: string, b: string)
    ensures Lines(a + "\n" + b) == Lines(a) + Lines(b)
  {
    hide Lines;
    if a == "" {
      LinesOfNothing();
      LinesStep('\n', b);
      assert a + "\n" + b == ['\n'] + b;
    } else {
      var rest := a[1..] + "\n" + b;
      LinesApart(a[1..], b);
      LinesStep(a[0], rest);
      LinesStep(a[0], a[1..]);
      assert a + "\n" + b == [a[0]] + rest && a == [a[0]] + a[1..];
    }
  }

  lemma OneLine(s: string)
    requires '\n' !in s
    ensures Lines(s) == [s]
  {
    if s != "" {
      OneLine(s[1..]);
      assert s == [s[0]] + s[1..];
    }
  }

  /** A line end and a line, added to a file, are a line of it. */
  lemma AddedLineIsThere(s: string, line: string)
    requires line != "" && '\n' !in line && !IsSpace(line[0]) && !IsSpace(line[|line| - 1])
    ensures HasLine(s + "\n" + line + "\n", line)
  {
    var all := s + "\n" + line + "\n";
    assert all == s + "\n" + (line + "\n" + "");
    LinesApart(s, line + "\n" + "");
    LinesApart(line, "");
    OneLine(line);
    assert Lines(all)[|Lines(s)|] == line && Trim(line) == line;
  }

  /** What goes between a CLAUDE.md's text and the import. */
  function ImportGap(s: string): string {
    if s != "" && !EndsWith(s, "\n") then "\n\n" else "\n"
  }

  function WithImport(s: string): string {
    s + (ImportGap(s) + IMPORT + "\n")
  }

  /** The import is added as a line of its own, after a blank line unless the file is empty, and before
      nothing. */
  lemma ImportGoesLast(s: string)
    ensures WithImport(s) == s + ImportGap(s) + "@AGENTS.md\n"
    ensures if s == "" then ImportGap(s) == "\n" else EndsWith(s + ImportGap(s), "\n\n")
    ensures |ImportGap(s)| <= 2 && (s != "" && s[|s| - 1] == '\n' ==> ImportGap(s) == "\n")
  {
    if s != "" && EndsWith(s, "\n") { assert s[|s| - 1] == s[|s| - 1..][0]; }
  }

  // What a line is

  predicate AllSpace(s: string) { forall c | c in s :: IsSpace(c) }

  lemma {:induction false} TrimLeftMeans(s: string)
    ensures exists lead :: AllSpace(lead) && s == lead + TrimLeft(s)
    ensures TrimLeft(s) != "" ==> !IsSpace(TrimLeft(s)[0])
  {
    if s != "" && IsSpace(s[0]) {
      TrimLeftMeans(s[1..]);
      var lead :| AllSpace(lead) && s[1..] == lead + TrimLeft(s[1..]);
      assert AllSpace([s[0]] + lead) && s == ([s[0]] + lead) + TrimLeft(s);
    } else {
      assert AllSpace("") && s == "" + TrimLeft(s);
    }
  }

  /** Trimming takes the white space at both ends, and that alone. */
  lemma {:induction false} TrimMeans(s: string)
    ensures exists lead, tail :: AllSpace(lead) && AllSpace(tail) && s == lead + Trim(s) + tail
    ensures Trim(s) != "" ==> !IsSpace(Trim(s)[0]) && !IsSpace(Trim(s)[|Trim(s)| - 1])
    decreases |s|
  {
    hide IsSpace, TrimLeft;
    TrimLeftMeans(s);
    var t := TrimLeft(s);
    var lead :| AllSpace(lead) && s == lead + t;
    if t != "" && IsSpace(t[|t| - 1]) {
      TrimMeans(t[..|t| - 1]);
      var more, tail :| AllSpace(more) && AllSpace(tail) && t[..|t| - 1] == more + Trim(t[..|t| - 1]) + tail;
      assert AllSpace(lead + more) && AllSpace(tail + [t[|t| - 1]]);
      assert s == (lead + more) + Trim(s) + (tail + [t[|t| - 1]]);
    } else {
      assert AllSpace("") && s == lead + Trim(s) + "";
    }
  }

  function Unlines(lines: seq<string>): string
    requires lines != []
  {
    if |lines| == 1 then lines[0] else lines[0] + "\n" + Unlines(lines[1..])
  }

  lemma UnlinesMore(l: string, rest: seq<string>)
    requires rest != []
    ensures Unlines([l] + rest) == l + "\n" + Unlines(rest) && Unlines([l]) == l
  {
    assert ([l] + rest)[1..] == rest;
  }

  lemma UnlinesLonger(c: char, lines: seq<string>)
    requires lines != []
    ensures Unlines([[c] + lines[0]] + lines[1..]) == [c] + Unlines(lines)
  {
    var longer := [[c] + lines[0]] + lines[1..];
    if |lines| > 1 {
      assert longer[1..] == lines[1..];
      assert [c] + lines[0] + "\n" + Unlines(lines[1..]) == [c] + (lines[0] + "\n" + Unlines(lines[1..]));
    }
  }

  /** A text's lines are it, with a line end between each two, and none in any. */
  lemma {:induction false} LinesAreTheText(s: string)
    ensures Unlines(Lines(s)) == s && forall i | 0 <= i < |Lines(s)| :: '\n' !in Lines(s)[i]
  {
    hide Lines, Unlines;
    if s == "" {
      LinesOfNothing();
      UnlinesMore("", [""]);
    } else {
      assert s == [s[0]] + s[1..];
      LinesStep(s[0], s[1..]);
      LinesAreTheText(s[1..]);
      var rest := Lines(s[1..]);
      UnlinesMore("", rest);
      UnlinesLonger(s[0], rest);
    }
  }

  lemma {:induction false} LineInText(lines: seq<string>, i: nat) returns (a: string, b: string)
    requires i < |lines|
    ensures Unlines(lines) == a + lines[i] + b
  {
    if |lines| == 1 {
      a, b := "", "";
    } else if i == 0 {
      a, b := "", "\n" + Unlines(lines[1..]);
    } else {
      a, b := LineInText(lines[1..], i - 1);
      Prepend(lines[0] + "\n", a, lines[i], b);
      a := lines[0] + "\n" + a;
    }
  }

  lemma Prepend(x: string, a: string, l: string, b: string)
    ensures x + (a + l + b) == (x + a) + l + b
  {
  }

  lemma Nested(a: string, lead: string, line: string, tail: string, b: string)
    ensures a + (lead + line + tail) + b == (a + lead) + line + (tail + b)
  {
  }

  /** What is a line of a file is in its text. */
  lemma LineIsInText(s: string, line: string) returns (a: string, b: string)
    requires HasLine(s, line)
    ensures s == a + line + b
  {
    var i :| 0 <= i < |Lines(s)| && Trim(Lines(s)[i]) == line;
    hide *;
    LinesAreTheText(s);
    a, b := LineInText(Lines(s), i);
    TrimMeans(Lines(s)[i]);
    var lead, tail :| AllSpace(lead) && AllSpace(tail) && Lines(s)[i] == lead + line + tail;
    Nested(a, lead, line, tail, b);
    a, b := a + lead, tail + b;
  }

  lemma ImportIsAdded(s: string)
    ensures HasLine(WithImport(s), IMPORT)
  {
    var lead := if ImportGap(s) == "\n" then s else s + "\n";
    assert WithImport(s) == lead + "\n" + IMPORT + "\n";
    assert IMPORT[0] == '@' && IMPORT[|IMPORT| - 1] == 'd';
    AddedLineIsThere(lead, IMPORT);
  }

  /** A CLAUDE.md that is the repo's AGENTS.md by another name. */
  predicate Links(agents: File, claude: File) {
    claude.LinkToAgents? && agents != Missing
  }

  predicate Readable(f: File) { f.Missing? || f.Regular? }

  function TextOf(f: File): string { if f.Regular? then f.text else "" }

  /** What a check finds; nothing where a file is not read. */
  function Checked(agents: File, claude: File, block: string): Option<Block> {
    if !Readable(agents) then None
    else
      var state := match CurrentBlock(TextOf(agents))
                   case None => BlockMissing
                   case Some(current) => if current == block then BlockUpToDate else BlockOutdated;
      if Links(agents, claude) then Some(Block(state, true, false))
      else if !Readable(claude) then None
      else Some(Block(state, claude.Regular?, claude.Regular? && !HasLine(claude.text, IMPORT)))
  }

  predicate BlockDue(agents: File, block: string) {
    WithBlock(TextOf(agents), block) != TextOf(agents)
  }

  predicate ImportDue(claude: File) {
    claude.Regular? && !HasLine(claude.text, IMPORT)
  }

  /** The files after a setup that could write them. */
  function SetUp(agents: File, claude: File, block: string): (File, File) {
    var after := if BlockDue(agents, block) then Regular(WithBlock(TextOf(agents), block)) else agents;
    (after, if !Links(after, claude) && ImportDue(claude) then Regular(WithImport(claude.text)) else claude)
  }

  /** After a setup, a check finds the import wherever CLAUDE.md needs it, and this block unless the
      AGENTS.md had an unended one; and another setup changes nothing, under the same condition. */
  lemma SetUpThenCheck(agents: File, claude: File, block: string)
    requires IsBlock(block) && Readable(agents) && (Readable(claude) || claude.LinkToAgents?)
    ensures var (a, c) := SetUp(agents, claude, block);
            && Checked(a, c, block).Some?
            && !Checked(a, c, block).value.noImport
            && (Checked(a, c, block).value.state == BlockUpToDate <==> !Unended(TextOf(agents)))
            && (SetUp(a, c, block) == (a, c) <==> !Unended(TextOf(agents)))
  {
    hide Unended, HasLine, IsBlock, CurrentBlock, WithImport, WithBlock;
    IdempotentUnlessUnended(TextOf(agents), block);
    if claude.Regular? { ImportIsAdded(claude.text); }
    assert agents.Missing? ==> BlockDue(agents, block) by { NoFileIsDue(block); }
  }

  lemma NoFileIsDue(block: string)
    requires IsBlock(block)
    ensures WithBlock("", block) == block != ""
  {
  }

  /** A check says the block is up to date exactly when a setup would leave AGENTS.md as it is, and the
      import missing exactly when it would change CLAUDE.md. */
  lemma CheckTellsSetUp(agents: File, claude: File, block: string)
    requires IsBlock(block) && Checked(agents, claude, block).Some?
    ensures var (a, c) := SetUp(agents, claude, block); var r := Checked(agents, claude, block).value;
            && (r.state == BlockUpToDate <==> a == agents)
            && (r.noImport <==> c != claude)
  {
    hide HasLine, IsBlock, CurrentBlock, WithBlock;
    CurrentIffNothingToWrite(TextOf(agents), block);
    NoFileIsDue(block);
    assert claude.Regular? ==> |WithImport(claude.text)| > |claude.text|;
  }

  class Repo {
    var agents: File
    var claude: File
    const block: string

    constructor (agents: File, claude: File, block: string)
      ensures this.agents == agents && this.claude == claude && this.block == block
    {
      this.agents, this.claude, this.block := agents, claude, block;
    }

    /** Says what a setup would find to do, or nothing where it could not read a file. */
    method CheckBlock() returns (r: Option<Block>)
      ensures r == Checked(agents, claude, block)
      ensures r.Some? <==> Readable(agents) && (Readable(claude) || Links(agents, claude))
      ensures r.Some? ==>
        && (r.value.hasClaudeMD <==> claude != Missing)
        && (r.value.state == BlockMissing <==>
              !exists i, k :: 0 <= i <= k && At(TextOf(agents), i, BEGIN) && At(TextOf(agents), k, END))
      ensures IsBlock(block) && r.Some? ==>
        && (r.value.state == BlockUpToDate <==> SetUp(agents, claude, block).0 == agents)
        && (r.value.noImport <==> SetUp(agents, claude, block).1 != claude)
    {
      hide HasLine, CurrentBlock, IsBlock, SetUp, At;
      HasBlockIff(TextOf(agents));
      if IsBlock(block) && Checked(agents, claude, block).Some? { CheckTellsSetUp(agents, claude, block); }
      if !Readable(agents) { return None; }
      var state := BlockUpToDate;
      var current := CurrentBlock(TextOf(agents));
      if current.None? { state := BlockMissing; } else if current.value != block { state := BlockOutdated; }
      if Links(agents, claude) { return Some(Block(state, true, false)); }
      if !Readable(claude) { return None; }
      return Some(Block(state, claude.Regular?, claude.Regular? && !HasLine(claude.text, IMPORT)));
    }

    /** Writes the block and the import where they are due, and says what it wrote. A write that fails may
        have cut the file short. */
    method WriteBlock(agentsWrite: Write, claudeWrite: Write) returns (wroteBlock: bool, wroteImport: bool, end: Outcome)
      modifies this
      ensures agents == if Readable(old(agents)) && BlockDue(old(agents), block)
                        then After(old(agents), WithBlock(TextOf(old(agents)), block), agentsWrite) else old(agents)
      ensures claude == if !end.Failed? && !Links(agents, old(claude)) && ImportDue(old(claude))
                        then After(old(claude), WithImport(TextOf(old(claude))), claudeWrite) else old(claude)
      ensures wroteBlock <==> Readable(old(agents)) && BlockDue(old(agents), block) && agentsWrite.Written?
      ensures wroteImport <==> !end.Failed? && !Links(agents, old(claude)) && ImportDue(old(claude)) && claudeWrite.Written?
      ensures end.Fine? && agentsWrite.Written? && claudeWrite.Written? ==>
        (agents, claude) == SetUp(old(agents), old(claude), block)
      ensures end.Failed? <==>
        !Readable(old(agents)) || (BlockDue(old(agents), block) && !agentsWrite.Written?)
      ensures end.ImportFailed? <==>
        && !end.Failed?
        && !Links(agents, old(claude))
        && (!Readable(old(claude)) || (ImportDue(old(claude)) && !claudeWrite.Written?))
    {
      wroteBlock, wroteImport := false, false;
      if !Readable(agents) { return false, false, Failed; }
      var md := TextOf(agents);
      var next := WithBlock(md, block);
      if next != md {
        agents := After(agents, next, agentsWrite);
        if !agentsWrite.Written? { return false, false, Failed; }
        wroteBlock := true;
      }
      if Links(agents, claude) { return wroteBlock, false, Fine; }
      if !Readable(claude) { return wroteBlock, false, ImportFailed; }
      if claude.Missing? || HasLine(claude.text, IMPORT) { return wroteBlock, false, Fine; }
      claude := After(claude, WithImport(claude.text), claudeWrite);
      if !claudeWrite.Written? { return wroteBlock, false, ImportFailed; }
      return wroteBlock, true, Fine;
    }
  }
}
