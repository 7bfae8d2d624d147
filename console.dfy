/**
 * The terminal log of the no-space-left puzzle: `$ cd X` and `$ ls` commands, each `ls`
 * followed by its output, one `dir name` or `size name` line per entry.
 */
module Console {
  import opened Results
  import opened Text

  /** One entry of an `ls` listing. */
  datatype Data = Directory(name: string) | File(name: string, size: int)

  datatype Command = Cd(target: string) | Ls(output: seq<Data>)

  /** `parseCommand`: the text after `$ ` must start with `ls` or `cd`; a `cd` target follows one more character. */
  function ParseCommand(line: string): Option<Command>
  {
    if |line| < 2 then None
    else
      var cmd := line[2..];
      if StartsWith(cmd, "ls") then Some(Ls([]))
      else if StartsWith(cmd, "cd") then (if |cmd| < 3 then None else Some(Cd(cmd[3..])))
      else None
  }

  /** `parseLsLog`: `dir name` is a directory; any other line is `size name`. */
  function ParseLsLog(line: string): Option<Data>
  {
    if StartsWith(line, "dir") then (if |line| < 4 then None else Some(Directory(line[4..])))
    else
      var parts := Split(line, ' ');
      var size := ParseInt(parts[0]);
      if size.None? || |parts| < 2 then None else Some(File(parts[1], size.value))
  }

  /**
   * One line of `parseConsoleLog`: a `$` line adds a command; any other line adds an entry to
   * the last command, which must exist and be an `ls`.
   */
  function LogStep(commands: seq<Command>, line: string): Option<seq<Command>>
  {
    if StartsWith(line, "$") then
      match ParseCommand(line)
      case None => None
      case Some(c) => Some(commands + [c])
    else if commands == [] || !commands[|commands| - 1].Ls? then None
    else
      match ParseLsLog(line)
      case None => None
      case Some(d) =>
        var n := |commands| - 1;
        Some(commands[..n] + [Ls(commands[n].output + [d])])
  }

  /** The commands after reading `lines` on top of `commands`; `None` once a line throws. */
  function Feed(commands: seq<Command>, lines: seq<string>): Option<seq<Command>>
    decreases |lines|
  {
    if lines == [] then Some(commands)
    else
      match LogStep(commands, lines[0])
      case None => None
      case Some(next) => Feed(next, lines[1..])
  }

  /** `parseConsoleLog`, line by line. */
  method ParseConsoleLog(lines: seq<string>) returns (r: Option<seq<Command>>)
    ensures r == Feed([], lines)
  {
    var commands: seq<Command> := [];
    for i := 0 to |lines|
      invariant Feed(commands, lines[i..]) == Feed([], lines)
    {
      var line := lines[i];
      assert lines[i..][1..] == lines[i + 1..];
      if StartsWith(line, "$") {
        var command := ParseCommand(line);
        if command.None? {
          return None;
        }
        commands := commands + [command.value];
      } else {
        if commands == [] || !commands[|commands| - 1].Ls? {
          return None;
        }
        var entry := ParseLsLog(line);
        if entry.None? {
          return None;
        }
        var last := commands[|commands| - 1];
        commands := commands[..|commands| - 1] + [Ls(last.output + [entry.value])];
      }
    }
    r := Some(commands);
  }

  /** Reading two blocks of lines is reading the first, then the second. */
  lemma {:induction false} FeedAppend(commands: seq<Command>, a: seq<string>, b: seq<string>)
    ensures Feed(commands, a + b) == match Feed(commands, a) case None => None case Some(c) => Feed(c, b)
    decreases |a|
  {
    if a != [] {
      assert (a + b)[0] == a[0] && (a + b)[1..] == a[1..] + b;
      match LogStep(commands, a[0])
      case None =>
      case Some(next) => FeedAppend(next, a[1..], b);
    } else {
      assert a + b == b;
    }
  }

  /** The line of a listing entry, as `ls` prints it. */
  function RenderData(d: Data): string
  {
    match d
    case Directory(name) => "dir " + name
    case File(name, size) => IntToString(size) + " " + name
  }

  function RenderCommand(c: Command): seq<string>
  {
    match c
    case Cd(target) => ["$ cd " + target]
    case Ls(output) => ["$ ls"] + RenderListing(output)
  }

  function RenderListing(output: seq<Data>): (r: seq<string>)
    ensures |r| == |output|
  {
    seq(|output|, k requires 0 <= k < |output| => RenderData(output[k]))
  }

  /** The terminal log of a session. */
  function RenderLog(commands: seq<Command>): seq<string>
    decreases |commands|
  {
    if commands == [] then [] else RenderLog(commands[..|commands| - 1]) + RenderCommand(commands[|commands| - 1])
  }

  /** A file's name has no space and its size is an `Int`, so its line splits back into the two. */
  predicate Printable(d: Data)
  {
    d.File? ==> ' ' !in d.name && IntMin <= d.size <= IntMax
  }

  predicate PrintableCommand(c: Command)
  {
    c.Ls? ==> forall k :: 0 <= k < |c.output| ==> Printable(c.output[k])
  }

  lemma ParseRenderedData(d: Data)
    requires Printable(d)
    ensures !StartsWith(RenderData(d), "$")
    ensures ParseLsLog(RenderData(d)) == Some(d)
  {
    match d
    case Directory(name) =>
      assert RenderData(d)[0] == 'd';
      assert RenderData(d)[4..] == name;
    case File(name, size) =>
      var line := RenderData(d);
      var digits := IntToString(size);
      assert digits[0] == '-' || IsDigit(digits[0]);
      assert line[0] == digits[0];
      assert Join([digits, name], ' ') == line;
      SplitJoin([digits, name], ' ');
      ParseIntToString(size);
  }

  /** An `ls` listing's lines add their entries, in order, to the `ls` just read. */
  lemma {:induction false} FeedListing(commands: seq<Command>, output: seq<Data>, more: seq<Data>)
    requires forall k :: 0 <= k < |more| ==> Printable(more[k])
    ensures Feed(commands + [Ls(output)], RenderListing(more)) == Some(commands + [Ls(output + more)])
    decreases |more|
  {
    if more == [] {
      assert output + more == output;
    } else {
      ParseRenderedData(more[0]);
      var next := commands + [Ls(output + [more[0]])];
      assert LogStep(commands + [Ls(output)], RenderListing(more)[0]) == Some(next) by {
        assert (commands + [Ls(output)])[..|commands|] == commands;
      }
      assert RenderListing(more)[1..] == RenderListing(more[1..]);
      FeedListing(commands, output + [more[0]], more[1..]);
      assert output + [more[0]] + more[1..] == output + more;
    }
  }

  lemma FeedCommand(commands: seq<Command>, c: Command)
    requires PrintableCommand(c)
    ensures Feed(commands, RenderCommand(c)) == Some(commands + [c])
  {
    match c
    case Cd(target) =>
      var line := "$ cd " + target;
      assert line[2..] == "cd " + target;
      assert line[2..][3..] == target;
      assert line[..1] == "$" && line[2..][..2] == "cd";
      assert ParseCommand(line) == Some(c);
      assert LogStep(commands, line) == Some(commands + [c]);
      assert RenderCommand(c)[1..] == [];
    case Ls(output) =>
      var lines := RenderCommand(c);
      assert lines[0] == "$ ls" && lines[1..] == RenderListing(output);
      assert LogStep(commands, lines[0]) == Some(commands + [Ls([])]);
      FeedListing(commands, [], output);
      assert [] + output == output;
  }

  /** The log of printable commands parses back into exactly those commands. */
  lemma {:induction false} ParseRenderedLog(commands: seq<Command>)
    requires forall k :: 0 <= k < |commands| ==> PrintableCommand(commands[k])
    ensures Feed([], RenderLog(commands)) == Some(commands)
    decreases |commands|
  {
    if commands != [] {
      var n := |commands| - 1;
      ParseRenderedLog(commands[..n]);
      FeedAppend([], RenderLog(commands[..n]), RenderCommand(commands[n]));
      FeedCommand(commands[..n], commands[n]);
      assert commands[..n] + [commands[n]] == commands;
    }
  }
}
