/**
 * The command dispatcher of task-cli: the words after the program name are
 * mapped to one store operation (or to a message that needs no store), and
 * that operation is run on the loaded store.
 */
module Cli {

  import opened Wrappers
  import opened Decimal
  import opened Tasks
  import opened TaskStore

  /** A request the store can serve. */
  datatype Command =
    | Add(description: string)
    | Update(id: int, description: string)
    | Delete(id: int)
    | Mark(id: int, status: Status)        // mark-in-progress, mark-done
    | List(filter: Option<Status>)

  /** A parsed request, or the report the dispatcher gives without touching the store. */
  datatype Parsed = Run(command: Command) | Refuse(report: Report)

  /** Python's `" ".join(words)`. */
  function Join(words: seq<string>): (r: string)
    ensures |words| == 1 ==> r == words[0]
    ensures |words| == 0 ==> r == ""
  {
    if words == [] then ""
    else if |words| == 1 then words[0]
    else words[0] + " " + Join(words[1..])
  }

  /**
   * The pieces of s between single spaces, empty ones included. The program
   * never splits a description; this is the inverse used to state JoinSplit.
   */
  function Split(s: string): (r: seq<string>)
    ensures |r| >= 1
  {
    if s == [] then [""]
    else if s[0] == ' ' then [""] + Split(s[1..])
    else var rest := Split(s[1..]); [[s[0]] + rest[0]] + rest[1..]
  }

  lemma {:induction false} SplitWord(w: string, tail: seq<string>, t: string)
    requires ' ' !in w
    requires Split(t) == [""] + tail
    ensures Split(w + t) == [w] + tail
  {
    if w != [] {
      assert (w + t)[1..] == w[1..] + t;
      SplitWord(w[1..], tail, t);
      assert [w[0]] + w[1..] == w;
    } else {
      assert w + t == t;
    }
  }

  /**
   * Joining loses nothing: words without spaces are recovered by splitting
   * the description at single spaces.
   */
  lemma {:induction false} JoinSplit(words: seq<string>)
    requires |words| >= 1
    requires forall i :: 0 <= i < |words| ==> ' ' !in words[i]
    ensures Split(Join(words)) == words
  {
    if |words| == 1 {
      SplitWord(words[0], [], "");
      assert words[0] + "" == words[0];
    } else {
      JoinSplit(words[1..]);
      var t := " " + Join(words[1..]);
      assert t[1..] == Join(words[1..]);
      assert Split(t) == [""] + words[1..];
      SplitWord(words[0], words[1..], t);
      assert words[0] + " " + Join(words[1..]) == words[0] + t;
      assert [words[0]] + words[1..] == words;
    }
  }

  /** The id argument at position 1: missing, not an integer, or the id. */
  function IdArgument(args: seq<string>): (r: Option<int>)
    ensures r.Some? <==> |args| >= 2 && ParseInt(args[1]).Some?
    ensures r.Some? ==> ParseInt(args[1]) == r
  {
    if |args| < 2 then None else ParseInt(args[1])
  }

  /**
   * Why an id argument was not accepted: no second word (the interpreter
   * stops on an IndexError), or one `int()` rejects (a ValueError).
   */
  function IdFailure(args: seq<string>): (r: Report)
    requires IdArgument(args).None?
    ensures r == MissingArgument <==> |args| < 2
    ensures r != MissingArgument ==> r == NotAnInteger(args[1]) && ParseInt(args[1]).None?
  {
    if |args| < 2 then MissingArgument else NotAnInteger(args[1])
  }

  /**
   * `main`'s choice of operation. `args` are the words after the program
   * name; the first is the command.
   */
  function ParseArgs(args: seq<string>): (r: Parsed)
    ensures r == Refuse(Usage) <==> args == []
    ensures r == Refuse(UnknownCommand) <==>
      args != [] && args[0] !in {"add", "update", "delete", "mark-in-progress", "mark-done", "list"}
    ensures r == Refuse(InvalidFilter) <==>
      |args| >= 2 && args[0] == "list" && ParseStatus(args[1]).None?
    ensures r.Run? && r.command.List? ==> args[0] == "list" && (r.command.filter.None? <==> |args| == 1)
    ensures r.Run? && r.command.Mark? ==> r.command.status != Todo
    ensures args != [] && args[0] == "add" ==> r == Run(Add(Join(args[1..])))
    ensures args != [] && args[0] == "update" ==>
      r == match IdArgument(args)
           case Some(id) => Run(Update(id, Join(args[2..])))
           case None => Refuse(IdFailure(args))
    ensures args != [] && args[0] == "delete" ==>
      r == match IdArgument(args)
           case Some(id) => Run(Delete(id))
           case None => Refuse(IdFailure(args))
    ensures args != [] && args[0] == "mark-in-progress" ==>
      r == match IdArgument(args)
           case Some(id) => Run(Mark(id, InProgress))
           case None => Refuse(IdFailure(args))
    ensures args != [] && args[0] == "mark-done" ==>
      r == match IdArgument(args)
           case Some(id) => Run(Mark(id, Done))
           case None => Refuse(IdFailure(args))
    ensures args == ["list"] ==> r == Run(List(None))
    ensures |args| >= 2 && args[0] == "list" && ParseStatus(args[1]).Some? ==>
      r == Run(List(ParseStatus(args[1])))
  {
    if args == [] then Refuse(Usage)
    else if args[0] == "add" then Run(Add(Join(args[1..])))
    else if args[0] == "update" then
      match IdArgument(args)
      case Some(id) => Run(Update(id, Join(args[2..])))
      case None => Refuse(IdFailure(args))
    else if args[0] == "delete" then
      match IdArgument(args)
      case Some(id) => Run(Delete(id))
      case None => Refuse(IdFailure(args))
    else if args[0] == "mark-in-progress" then
      match IdArgument(args)
      case Some(id) => Run(Mark(id, InProgress))
      case None => Refuse(IdFailure(args))
    else if args[0] == "mark-done" then
      match IdArgument(args)
      case Some(id) => Run(Mark(id, Done))
      case None => Refuse(IdFailure(args))
    else if args[0] == "list" then
      if |args| == 1 then Run(List(None))
      else match ParseStatus(args[1])
        case Some(s) => Run(List(Some(s)))
        case None => Refuse(InvalidFilter)
    else Refuse(UnknownCommand)
  }

  /** Words a user can type to make the request c. */
  function Words(c: Command): seq<string> {
    match c
    case Add(text) => ["add", text]
    case Update(id, text) => ["update", IntToString(id), text]
    case Delete(id) => ["delete", IntToString(id)]
    case Mark(id, s) => [if s == Done then "mark-done" else "mark-in-progress", IntToString(id)]
    case List(None) => ["list"]
    case List(Some(s)) => ["list", StatusName(s)]
  }

  /**
   * Every request the dispatcher can make is reachable from the command
   * line, and the dispatcher reads it back unchanged: `mark-in-progress`
   * and `mark-done` map to their statuses, ids survive printing and
   * parsing, and a description given as one word is kept whole.
   */
  lemma ParseWords(c: Command)
    requires c.Mark? ==> c.status != Todo
    ensures ParseArgs(Words(c)) == Run(c)
  {
    match c
    case Add(text) =>
    case Update(id, text) =>
      IntRoundTrip(id);
      assert Words(c)[2..] == [text];
    case Delete(id) =>
      IntRoundTrip(id);
    case Mark(id, s) =>
      IntRoundTrip(id);
    case List(None) =>
    case List(Some(s)) =>
      StatusRoundTrip(s);
  }

  /** The store change a request makes, given the clock's first and second readings. */
  function ChangeOf(c: Command, first: Timestamp, second: Timestamp): Option<Change> {
    match c
    case Add(text) => Some(Create(text, first, second))
    case Update(id, text) => Some(Revise(id, SetDescription(text), first))
    case Delete(id) => Some(Remove(id))
    case Mark(id, s) => Some(Revise(id, SetStatus(s), first))
    case List(_) => None
  }

  /**
   * `main` after the store file exists: parse the words, run the chosen
   * operation on the store, and give back the line it prints. Requests
   * refused by the parser, and listings, leave the store untouched.
   */
  method Dispatch(store: Store, args: seq<string>, first: Timestamp, second: Timestamp) returns (report: Report)
    modifies store
    ensures ParseArgs(args).Refuse? ==>
      report == ParseArgs(args).report && store.Doc() == old(store.Doc()) && store.saves == old(store.saves)
    ensures ParseArgs(args).Run? && ParseArgs(args).command.List? ==>
      report == ListReport(old(store.tasks), ParseArgs(args).command.filter) &&
      store.Doc() == old(store.Doc()) && store.saves == old(store.saves)
    ensures ParseArgs(args).Run? && !ParseArgs(args).command.List? ==>
      var change := ChangeOf(ParseArgs(args).command, first, second).value;
      store.Doc() == Apply(old(store.Doc()), change) && report == Reply(old(store.Doc()), change) &&
      store.saves == old(store.saves) + (if Writes(old(store.Doc()), change) then 1 else 0)
    ensures old(store.Valid()) ==> store.Valid()
  {
    match ParseArgs(args)
    case Refuse(r) =>
      report := r;
    case Run(Add(text)) =>
      report := store.AddTask(text, first, second);
    case Run(Update(id, text)) =>
      report := store.UpdateTask(id, text, first);
    case Run(Delete(id)) =>
      report := store.DeleteTask(id);
    case Run(Mark(id, s)) =>
      report := store.ChangeStatus(id, s, first);
    case Run(List(filter)) =>
      report := store.ListTasks(filter);
  }
}
