/** Fully parenthesised command trees: printing one and parsing it gives it back. */
module ShellTrees {
  import opened ShellGrammar
  import opened ShellTheorems
  import opened ShellCommands
  import opened ShellLines

  /** A command without positions. */
  datatype Tree =
    | TExec(args: seq<string>)
    | TRedir(tree: Tree, file: string, out: bool)
    | TPipe(left: Tree, right: Tree)
    | TList(left: Tree, right: Tree)
    | TBack(tree: Tree)

  /** Trees the shell can hold: proper words, and fewer than MAXARGS arguments. */
  predicate WellFormed(t: Tree) {
    match t
    case TExec(args) => |args| < MAXARGS && forall i | 0 <= i < |args| :: IsWord(args[i])
    case TRedir(c, file, _) => WellFormed(c) && IsWord(file)
    case TPipe(l, r) => WellFormed(l) && WellFormed(r)
    case TList(l, r) => WellFormed(l) && WellFormed(r)
    case TBack(c) => WellFormed(c)
  }

  function PrintArgs(args: seq<string>): string {
    if args == [] then "" else args[0] + " " + PrintArgs(args[1..])
  }

  /** Fully parenthesised text. */
  function Print(t: Tree): string {
    match t
    case TExec(args) => PrintArgs(args)
    case TRedir(c, file, out) => "(" + Print(c) + ")" + (if out then ">" else "<") + file
    case TPipe(l, r) => "(" + Print(l) + ")|(" + Print(r) + ")"
    case TList(l, r) => "(" + Print(l) + ");(" + Print(r) + ")"
    case TBack(c) => "(" + Print(c) + ")&"
  }

  /** The tree that a command stands for in a line. */
  ghost predicate Denotes(s: string, cmd: Cmd, t: Tree) {
    match t
    case TExec(args) => cmd.Exec? && |cmd.argv| == |args| && forall i | 0 <= i < |args| ::
        Spells(s, cmd.argv[i], args[i])
    case TRedir(c, file, out) =>
      && cmd.Redir? && Denotes(s, cmd.cmd, c) && Spells(s, cmd.to.file, file)
      && cmd.to.mode == (if out then O_OUT else O_RDONLY) && cmd.to.fd == if out then 1 else 0
    case TPipe(l, r) => cmd.Pipe? && Denotes(s, cmd.left, l) && Denotes(s, cmd.right, r)
    case TList(l, r) => cmd.List? && Denotes(s, cmd.left, l) && Denotes(s, cmd.right, r)
    case TBack(c) => cmd.Back? && Denotes(s, cmd.cmd, c)
  }

  function ArgItems(args: seq<string>): seq<Item> {
    if args == [] then [] else [Arg(args[0], " ")] + ArgItems(args[1..])
  }

  function Boxed(t: Tree, files: seq<Item>): Stage
    decreases t, 1
  {
    Group("", LineOf(t), "", files)
  }

  /** The line that Print writes. */
  function LineOf(t: Tree): Line
    decreases t, 0
  {
    match t
    case TExec(args) => Job(Alone(ArgItems(args)), [])
    case TRedir(c, file, out) => Job(One(Boxed(c, [if out then To("", file, "") else From("", file, "")])), [])
    case TPipe(l, r) => Job(Bar(Boxed(l, []), One(Boxed(r, []))), [])
    case TList(l, r) => Semi(One(Boxed(l, [])), [], Job(One(Boxed(r, [])), []))
    case TBack(c) => Job(One(Boxed(c, [])), [""])
  }

  lemma {:induction false} ArgItemsOk(args: seq<string>)
    requires forall i | 0 <= i < |args| :: IsWord(args[i])
    ensures ItemsOk(ArgItems(args)) && Args(ArgItems(args)) == args && Files(ArgItems(args)) == []
    ensures PrintItems(ArgItems(args)) == PrintArgs(args)
  {
    if args != [] {
      ArgItemsOk(args[1..]);
      var it, rest := Arg(args[0], " "), ArgItems(args[1..]);
      assert ([it] + rest)[1..] == rest;
      assert PrintItem(it) == "" + "" + args[0] + " " == args[0] + " ";
    }
  }

  lemma BoxedPrints(t: Tree)
    requires PrintLine(LineOf(t)) == Print(t) && LineOk(LineOf(t))
    ensures PrintStage(Boxed(t, [])) == "(" + Print(t) + ")" && StageOk(Boxed(t, []))
  {
    hide PrintLine, Print, LineOk, LineOf;
    var a := Print(t);
    assert "" + "(" + a + ")" + "" + "" == "(" + a + ")";
  }

  lemma RedirPrints(t: Tree, file: string, out: bool)
    requires PrintLine(LineOf(t)) == Print(t) && LineOk(LineOf(t)) && IsWord(file)
    ensures var it := if out then To("", file, "") else From("", file, "");
            && PrintStage(Boxed(t, [it])) == "(" + Print(t) + ")" + (if out then ">" else "<") + file
            && StageOk(Boxed(t, [it]))
  {
    hide PrintLine, Print, LineOk, LineOf;
    var a, it := Print(t), if out then To("", file, "") else From("", file, "");
    var op := if out then ">" else "<";
    assert [it][1..] == [] && PrintItems([]) == "";
    assert PrintItem(it) == op + "" + file + "" == op + file;
    assert PrintItems([it]) == op + file;
    assert "" + "(" + a + ")" + "" + (op + file) == "(" + a + ")" + op + file;
    assert ItemsOk([it]);
    assert Args([it][1..]) == [] && Args([it]) == [];
  }

  lemma JobPrints(pipe: Pipeline)
    requires PipelineOk(pipe)
    ensures PrintLine(Job(pipe, [])) == PrintPipeline(pipe) && LineOk(Job(pipe, []))
    ensures PrintLine(Job(pipe, [""])) == PrintPipeline(pipe) + "&" && LineOk(Job(pipe, [""]))
  {
    hide PrintPipeline, PipelineOk;
    assert PrintPipeline(pipe) + "" == PrintPipeline(pipe);
    assert PrintBacks([""]) == "&" + "" + "" == "&";
  }

  lemma {:induction false} LineOfPrints(t: Tree)
    requires WellFormed(t)
    ensures LineOk(LineOf(t)) && PrintLine(LineOf(t)) == Print(t)
  {
    hide PrintStage, StageOk, PrintLine, LineOk, Boxed;
    match t
    case TExec(args) =>
      ArgItemsOk(args);
      AlonePrints(ArgItems(args));
    case TRedir(c, file, out) =>
      LineOfPrints(c);
      RedirPrints(c, file, out);
      JobPrints(LineOf(t).pipe);
    case TPipe(l, r) =>
      LineOfPrints(l);
      LineOfPrints(r);
      BoxedPrints(l);
      BoxedPrints(r);
      JobPrints(LineOf(t).pipe);
      assert ("(" + Print(l) + ")") + "|" + ("(" + Print(r) + ")") == Print(t);
    case TList(l, r) =>
      LineOfPrints(l);
      LineOfPrints(r);
      BoxedPrints(l);
      BoxedPrints(r);
      ListPrints(l, r);
    case TBack(c) =>
      LineOfPrints(c);
      BoxedPrints(c);
      JobPrints(LineOf(t).pipe);
  }

  lemma ListPrints(l: Tree, r: Tree)
    requires PrintStage(Boxed(l, [])) == "(" + Print(l) + ")" && StageOk(Boxed(l, []))
    requires PrintStage(Boxed(r, [])) == "(" + Print(r) + ")" && StageOk(Boxed(r, []))
    ensures var t := TList(l, r); LineOk(LineOf(t)) && PrintLine(LineOf(t)) == Print(t)
  {
    hide PrintStage, StageOk, Boxed;
    var a, b := One(Boxed(l, [])), One(Boxed(r, []));
    JobPrints(b);
    assert PrintPipeline(a) == "(" + Print(l) + ")" && PrintPipeline(b) == "(" + Print(r) + ")";
    assert "(" + Print(l) + ")" + "" + ";" + ("(" + Print(r) + ")") == "(" + Print(l) + ");(" + Print(r) + ")";
    assert PrintBacks([]) == "" && PipelineOk(a);
  }

  lemma {:induction false} LineOfMeans(s: string, cmd: Cmd, t: Tree)
    requires WellFormed(t) && LineMeans(s, cmd, LineOf(t))
    ensures Denotes(s, cmd, t)
    decreases t
  {
    hide SimpleMeans, Spells;
    match t
    case TExec(args) =>
      ArgItemsOk(args);
      AloneMeans(s, cmd, ArgItems(args));
      ExecMeans(s, cmd, args);
    case TRedir(c, file, out) =>
      var it := if out then To("", file, "") else From("", file, "");
      assert LineOf(t) == Job(One(Boxed(c, [it])), []);
      assert BackMeans(s, cmd, One(Boxed(c, [it])), 0) && PipelineMeans(s, cmd, One(Boxed(c, [it])));
      RedirMeans(s, cmd, c, it);
      LineOfMeans(s, cmd.cmd, c);
    case TPipe(l, r) =>
      assert BackMeans(s, cmd, LineOf(t).pipe, 0) && PipelineMeans(s, cmd, LineOf(t).pipe);
      BoxedMeans(s, cmd.left, l);
      BoxedMeans(s, cmd.right, r);
      LineOfMeans(s, cmd.left, l);
      LineOfMeans(s, cmd.right, r);
    case TList(l, r) =>
      assert BackMeans(s, cmd.left, One(Boxed(l, [])), 0) && LineMeans(s, cmd.right, Job(One(Boxed(r, [])), []));
      assert BackMeans(s, cmd.right, One(Boxed(r, [])), 0);
      BoxedMeans(s, cmd.left, l);
      BoxedMeans(s, cmd.right, r);
      LineOfMeans(s, cmd.left, l);
      LineOfMeans(s, cmd.right, r);
    case TBack(c) =>
      assert BackMeans(s, cmd, LineOf(t).pipe, 1) && BackMeans(s, cmd.cmd, LineOf(t).pipe, 0);
      BoxedMeans(s, cmd.cmd, c);
      LineOfMeans(s, cmd.cmd, c);
  }

  lemma ExecMeans(s: string, cmd: Cmd, args: seq<string>)
    requires SimpleMeans(s, cmd, args, [])
    ensures Denotes(s, cmd, TExec(args))
  {
  }

  lemma RedirMeans(s: string, cmd: Cmd, t: Tree, it: Item)
    requires StageMeans(s, cmd, Boxed(t, [it]))
    ensures cmd.Redir? && Opens(s, cmd.to, it) && LineMeans(s, cmd.cmd, LineOf(t))
  {
    hide Opens, LineMeans, LineOf;
    assert GroupMeans(s, cmd, LineOf(t), [it]) && [it][..0] == [];
    assert GroupMeans(s, cmd.cmd, LineOf(t), []);
  }

  lemma BoxedMeans(s: string, cmd: Cmd, t: Tree)
    ensures PipelineMeans(s, cmd, One(Boxed(t, []))) <==> LineMeans(s, cmd, LineOf(t))
    ensures StageMeans(s, cmd, Boxed(t, [])) <==> LineMeans(s, cmd, LineOf(t))
  {
    assert GroupMeans(s, cmd, LineOf(t), []) <==> LineMeans(s, cmd, LineOf(t));
  }

  /** The round trip: parsing the fully parenthesised print of any well-formed tree returns that tree. */
  lemma RoundTrip(t: Tree) returns (cmd: Cmd)
    requires WellFormed(t)
    ensures ParseCmd(Print(t)) == Ok(cmd, |Print(t)|) && Denotes(Print(t), cmd, t) && WordsOk(Print(t), cmd)
  {
    hide WellFormed, Print, LineOk, PrintLine, LineMeans, Denotes, WordsOk, ParseLine;
    LineOfPrints(t);
    cmd := CommandParses(LineOf(t));
    LineOfMeans(Print(t), cmd, t);
    LineWords(Print(t), 0);
  }
}
