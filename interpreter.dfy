/** The command interpreter of main.py: the parser that maps a line to a
    handler and its arguments, the `input_error` decorator that turns three
    kinds of exception into messages, the handlers that act on the shared
    address book, and one pass of the interactive loop. */
module Interpreter {
  import opened Errors
  import opened Text
  import opened Phones
  import opened Records
  import opened Book

  /** The handlers the parser can choose, named after the functions of main.py. */
  datatype Handler =
    | Hello           // func_hello
    | Add             // func_add
    | Change          // func_change
    | Search          // func_search
    | ShowAll         // func_show_all
    | Delete          // func_delete
    | UnknownCommand  // func_unknown_command

  /** What `parser` returns: a handler and the arguments it will be called with. */
  datatype Parsed = Parsed(handler: Handler, args: seq<string>)

  /** What calling a decorated handler produces: a text to print, or an
      exception that `input_error` lets through. */
  datatype Outcome = Reply(text: string) | Uncaught(error: Error)

  /** The `COMMANDS` dictionary, in its iteration order. The keys are matched
      against the title-cased line. */
  const Commands: seq<(string, Handler)> :=
    [("Hello", Hello), ("Add ", Add), ("Change ", Change), ("Phone ", Search),
     ("Show All", ShowAll), ("Del ", Delete)]

  const NotEnoughParams: string := "Not enough params"
  const NoSuchContact: string := "There is no contact such in phone book."
  const WrongPhoneFormat: string := "Not enough params or wrong phone format"
  const InfoSaved: string := "Info saved successfully."
  const Greeting: string := "How can I help you?"
  const UnknownCommandText: string := "Unknown command. Try again."
  const Farewell: string := "Good bye!"

  /** The lines, compared after lower-casing, that end the session. */
  const QuitPhrases: seq<string> := ["exit", "close", "good bye"]

  // ---------------------------------------------------------------------------
  // input_error

  /** The `except` clauses of `input_error`: a missing argument, an unknown
      name and a bad phone each become a fixed message; any other exception
      leaves the handler. */
  function InputError(e: Error): (o: Outcome)
    ensures o.Reply? <==> (e.IndexError? || e.KeyError? || e.ValueError?)
    ensures o.Uncaught? ==> o.error == e
    ensures e.IndexError? ==> o == Reply(NotEnoughParams)
    ensures e.KeyError? ==> o == Reply(NoSuchContact)
    ensures e.ValueError? ==> o == Reply(WrongPhoneFormat)
  {
    match e
    case IndexError => Reply(NotEnoughParams)
    case KeyError => Reply(NoSuchContact)
    case ValueError => Reply(WrongPhoneFormat)
    case _ => Uncaught(e)
  }

  /** The three caught exceptions get three different messages. */
  lemma InputErrorDistinguishes(e1: Error, e2: Error)
    requires InputError(e1).Reply? && InputError(e2).Reply? && e1 != e2
    ensures InputError(e1).text != InputError(e2).text
  {
    assert NoSuchContact[0] != WrongPhoneFormat[0];
  }

  /** `args[i]` inside a handler: the argument, or `IndexError`. */
  function Arg(args: seq<string>, i: nat): (r: Result<string>)
    ensures r.Ok? <==> i < |args|
    ensures r.Ok? ==> r.value == args[i]
    ensures r.Err? ==> r.error == IndexError
  {
    if i < |args| then Ok(args[i]) else Err(IndexError)
  }

  // ---------------------------------------------------------------------------
  // parser

  /** The loop over `COMMANDS` from entry `from` on: the first entry whose key
      the line starts with. */
  function FirstPrefix(t: string, from: nat): (r: Option<nat>)
    requires from <= |Commands|
    ensures r.Some? ==> from <= r.value < |Commands| && StartsWith(t, Commands[r.value].0)
    ensures r.Some? ==> forall j :: from <= j < r.value ==> !StartsWith(t, Commands[j].0)
    ensures r.None? <==> forall j :: from <= j < |Commands| ==> !StartsWith(t, Commands[j].0)
    decreases |Commands| - from
  {
    if from == |Commands| then None
    else if StartsWith(t, Commands[from].0) then Some(from)
    else FirstPrefix(t, from + 1)
  }

  /** `parser`: title-cases the line, finds the first command key it starts
      with and splits what follows the key into arguments; with no key it
      chooses the unknown-command handler and no arguments. */
  function Parse(line: string): (p: Parsed)
    ensures p.handler == UnknownCommand <==>
              forall i :: 0 <= i < |Commands| ==> !StartsWith(TitleCase(line), Commands[i].0)
    ensures p.handler == UnknownCommand ==> p.args == []
    ensures p.handler != UnknownCommand ==>
              exists i :: 0 <= i < |Commands| && Commands[i].1 == p.handler
                && StartsWith(TitleCase(line), Commands[i].0)
                && (forall j :: 0 <= j < i ==> !StartsWith(TitleCase(line), Commands[j].0))
                && p.args == Split(Strip(TitleCase(line)[|Commands[i].0|..]))
  {
    var t := TitleCase(line);
    match FirstPrefix(t, 0)
    case None => Parsed(UnknownCommand, [])
    case Some(i) =>
      assert Commands[i].1 != UnknownCommand;
      var p := Parsed(Commands[i].1, Split(Strip(t[|Commands[i].0|..])));
      assert Commands[i].1 == p.handler && p.args == Split(Strip(t[|Commands[i].0|..]));
      p
  }

  /** No two command keys can match the same line, so the order of the table
      never decides between two of them. */
  lemma CommandPrefixesExclusive(t: string, i: nat, j: nat)
    requires i < j < |Commands|
    ensures !(StartsWith(t, Commands[i].0) && StartsWith(t, Commands[j].0))
  {
    assert Commands[i].0[0] != Commands[j].0[0];
  }

  /** Commands are recognised whatever case they are typed in, and the
      arguments do not depend on it either. */
  lemma ParseIgnoresCase(line: string)
    ensures Parse(Lower(line)) == Parse(line)
  {
    TitleCaseOfLower(line);
  }

  /** The arguments are non-empty words without whitespace, and they hold every
      non-space character of the title-cased line after the command key. */
  lemma ParseArgsAreWords(line: string)
    ensures forall k :: 0 <= k < |Parse(line).args| ==> IsWord(Parse(line).args[k])
    ensures Parse(line).handler != UnknownCommand ==>
              exists i :: 0 <= i < |Commands| && StartsWith(TitleCase(line), Commands[i].0)
                && Concat(Parse(line).args) == NonSpace(TitleCase(line)[|Commands[i].0|..])
  {
    var t := TitleCase(line);
    match FirstPrefix(t, 0)
    case None =>
    case Some(i) =>
      var rest := t[|Commands[i].0|..];
      SplitWords(Strip(rest));
      SplitStrip(rest);
      SplitWords(rest);
  }

  /** A line that starts with a command key is taken for that key's command,
      whatever its place in the table. */
  lemma FirstPrefixIsOnlyPrefix(t: string, i: nat)
    requires i < |Commands| && StartsWith(t, Commands[i].0)
    ensures FirstPrefix(t, 0) == Some(i)
  {
    forall j | 0 <= j < i
      ensures !StartsWith(t, Commands[j].0)
    {
      CommandPrefixesExclusive(t, j, i);
    }
  }

  /** A line made of a command key followed by words separated by single
      blanks parses to that key's handler with exactly those words: `split()`
      cuts the line at the blanks and nowhere else. */
  lemma ParseKeyAndWords(line: string, i: nat, words: seq<string>)
    requires i < |Commands|
    requires TitleCase(line) == Commands[i].0 + Join(words, " ")
    requires forall k :: 0 <= k < |words| ==> IsWord(words[k])
    ensures Parse(line) == Parsed(Commands[i].1, words)
  {
    var t, key := TitleCase(line), Commands[i].0;
    var rest := Join(words, " ");
    assert t[..|key|] == key && t[|key|..] == rest;
    FirstPrefixIsOnlyPrefix(t, i);
    SplitStrip(rest);
    SplitJoinedWords(words);
  }

  // ---------------------------------------------------------------------------
  // The quit test of the interactive loop

  /** Two texts that differ at most in the case of their letters. */
  predicate SameUpToCase(a: string, b: string)
  {
    |a| == |b| && forall i :: 0 <= i < |a| ==> LowerChar(a[i]) == LowerChar(b[i])
  }

  /** `user_input.lower() in ["exit", "close", "good bye"]`: the line is one of
      the quit phrases, typed in any mix of cases. */
  function IsQuit(line: string): (b: bool)
    ensures b <==> exists k :: 0 <= k < |QuitPhrases| && SameUpToCase(line, QuitPhrases[k])
  {
    forall k | 0 <= k < |QuitPhrases|
      ensures Lower(line) == QuitPhrases[k] <==> SameUpToCase(line, QuitPhrases[k])
    {
      var q := QuitPhrases[k];
      assert forall i :: 0 <= i < |q| ==> LowerChar(q[i]) == q[i];
    }
    Lower(line) in QuitPhrases
  }

  /** A quit phrase, in whatever case it is typed, would not be taken for a
      command by the parser: it is told apart before parsing, and parsing it
      would only have reached the unknown-command handler. */
  lemma QuitPhrasesAreNotCommands(line: string)
    requires IsQuit(line)
    ensures Parse(line).handler == UnknownCommand
  {
    var t, l := TitleCase(line), Lower(line);
    LowerOfTitleCase(line);
    assert l == "exit" || l == "close" || l == "good bye";
    forall i | 0 <= i < |Commands|
      ensures !StartsWith(t, Commands[i].0)
    {
      var p := Commands[i].0;
      // "close" and "Change " agree in their first letter only.
      var k := if p[0] == 'C' then 1 else 0;
      assert LowerChar(p[k]) != l[k];
      assert Lower(t)[k] == LowerChar(t[k]);
      assert t[k] != p[k];
      assert |p| <= |t| ==> t[..|p|][k] != p[k];
    }
  }

  // ---------------------------------------------------------------------------
  // Handlers

  predicate AllValidValues(vs: seq<string>)
  {
    forall i :: 0 <= i < |vs| ==> IsValidPhone(vs[i])
  }

  /** The phones `func_add` builds from its phone arguments. */
  function PhonesOf(vs: seq<string>): (ps: seq<Phone>)
    ensures Values(ps) == vs
    ensures AllValid(ps) <==> AllValidValues(vs)
  {
    if vs == [] then []
    else
      var ps := [Phone(vs[0])] + PhonesOf(vs[1..]);
      assert Values(ps) == [vs[0]] + vs[1..];
      ps
  }

  /** Appending one value appends its phone. */
  lemma PhonesOfAppend(vs: seq<string>, v: string)
    ensures PhonesOf(vs + [v]) == PhonesOf(vs) + [Phone(v)]
  {
    var ps, qs := PhonesOf(vs + [v]), PhonesOf(vs) + [Phone(v)];
    assert Values(ps) == vs + [v];
    assert Values(qs) == vs + [v];
    ValuesInjective(ps, qs);
  }

  lemma ValuesInjective(ps: seq<Phone>, qs: seq<Phone>)
    requires Values(ps) == Values(qs)
    ensures ps == qs
  {
    assert |ps| == |qs|;
    forall i | 0 <= i < |ps|
      ensures ps[i] == qs[i]
    {
      assert Values(ps)[i] == Values(qs)[i];
    }
  }

  /** The first part of `func_add`: `Record(name)` followed by `add_phone` for
      each phone argument in turn, stopping at the first malformed one. */
  method NewRecord(name: string, raws: seq<string>) returns (r: Result<Record>)
    ensures r.Ok? <==> AllValidValues(raws)
    ensures r.Err? ==> r.error == ValueError
    ensures r.Ok? ==> fresh(r.value) && r.value.name == name && r.value.phones == PhonesOf(raws)
  {
    var record := new Record(name);
    var i := 0;
    while i < |raws|
      invariant 0 <= i <= |raws|
      invariant fresh(record) && record.name == name
      invariant record.phones == PhonesOf(raws[..i])
      invariant AllValidValues(raws[..i])
    {
      var added := record.AddPhone(raws[i]);
      if added.Err? {
        assert !IsValidPhone(raws[i]);
        return Err(added.error);
      }
      assert raws[..i + 1] == raws[..i] + [raws[i]];
      assert AllValidValues(raws[..i + 1]);
      PhonesOfAppend(raws[..i], raws[i]);
      i := i + 1;
    }
    assert raws[..i] == raws;
    return Ok(record);
  }

  /** `func_add`: builds a record from the first argument and the phones from
      the rest, then stores it. A missing name or a malformed phone ends the
      handler before the store is touched. */
  method FuncAdd(book: AddressBook, args: seq<string>) returns (out: Outcome)
    requires book.Valid()
    modifies book
    ensures book.Valid()
    ensures |args| == 0 ==> out == Reply(NotEnoughParams) && unchanged(book)
    ensures |args| >= 1 && !AllValidValues(args[1..]) ==> out == Reply(WrongPhoneFormat) && unchanged(book)
    ensures |args| >= 1 && AllValidValues(args[1..]) ==>
              && out == Reply(InfoSaved)
              && args[0] in book.data
              && fresh(book.data[args[0]])
              && book.data[args[0]].phones == PhonesOf(args[1..])
              && book.data == old(book.data)[args[0] := book.data[args[0]]]
              && book.order == if args[0] in old(book.data) then old(book.order) else old(book.order) + [args[0]]
    ensures old(book.PhonesValid()) ==> book.PhonesValid()
  {
    var name := Arg(args, 0);
    if name.Err? {
      return InputError(name.error);
    }
    var record := NewRecord(name.value, args[1..]);
    if record.Err? {
      return InputError(record.error);
    }
    book.AddRecord(record.value);
    return Reply(InfoSaved);
  }

  /** `func_change`: looks the name up and then calls `func_edit_phone`, a
      method `Record` does not have, on the first phone argument; so with a
      phone argument it raises `AttributeError`, which `input_error` does not
      catch, and without one it reports success having changed nothing. */
  function FuncChange(book: AddressBook, args: seq<string>): (o: Outcome)
    reads book
    requires book.Valid()
    ensures |args| == 0 ==> o == Reply(NotEnoughParams)
    ensures |args| >= 1 && args[0] !in book.data ==> o == Reply(NoSuchContact)
    ensures |args| >= 1 && args[0] in book.data ==>
              o == if |args| == 1 then Reply(InfoSaved) else Uncaught(AttributeError)
  {
    match Arg(args, 0)
    case Err(e) => InputError(e)
    case Ok(name) =>
      if book.Find(name).None? then InputError(KeyError)
      else if |args| > 1 then InputError(AttributeError)
      else Reply(InfoSaved)
  }

  /** `func_search`: the rendering of the named record. */
  function FuncSearch(book: AddressBook, args: seq<string>): (o: Outcome)
    reads book, book.data.Values
    requires book.Valid()
    ensures |args| == 0 ==> o == Reply(NotEnoughParams)
    ensures |args| >= 1 && args[0] !in book.data ==> o == Reply(NoSuchContact)
    ensures |args| >= 1 && args[0] in book.data ==>
              o == Reply(RenderRecord(args[0], book.data[args[0]].phones))
  {
    match Arg(args, 0)
    case Err(e) => InputError(e)
    case Ok(name) =>
      match book.Find(name)
      case None => InputError(KeyError)
      case Some(record) => Reply(record.Render())
  }

  /** `func_delete`: removes the named record, present or not, and says so. */
  method FuncDelete(book: AddressBook, args: seq<string>) returns (out: Outcome)
    requires book.Valid()
    modifies book
    ensures book.Valid()
    ensures |args| == 0 ==> out == Reply(NotEnoughParams) && unchanged(book)
    ensures |args| >= 1 ==>
              && out == Reply("User " + args[0] + " has been deleted from the phone book")
              && book.data == old(book.data) - {args[0]}
              && book.order == RemoveKey(old(book.order), args[0])
    ensures old(book.PhonesValid()) ==> book.PhonesValid()
  {
    var name := Arg(args, 0);
    if name.Err? {
      return InputError(name.error);
    }
    book.Delete(name.value);
    return Reply("User " + name.value + " has been deleted from the phone book");
  }

  /** `func_show_all`: the listing of the whole book; arguments are ignored. */
  function FuncShowAll(book: AddressBook, args: seq<string>): (o: Outcome)
    reads book, book.data.Values
    requires book.Valid()
    ensures o == Reply(Join(book.Lines(book.order), "\n"))
  {
    Reply(book.Render())
  }

  /** `func_hello`, which takes no parameters: called with arguments it raises
      `TypeError`, which `input_error` does not catch. */
  function FuncHello(args: seq<string>): (o: Outcome)
    ensures args == [] ==> o == Reply(Greeting)
    ensures args != [] ==> o == Uncaught(TypeError)
  {
    if args == [] then Reply(Greeting) else InputError(TypeError)
  }

  /** `func_unknown_command`, which also takes no parameters. */
  function FuncUnknownCommand(args: seq<string>): (o: Outcome)
    ensures args == [] ==> o == Reply(UnknownCommandText)
    ensures args != [] ==> o == Uncaught(TypeError)
  {
    if args == [] then Reply(UnknownCommandText) else InputError(TypeError)
  }

  // ---------------------------------------------------------------------------
  // One pass of the interactive loop

  /** One line of the session: a quit phrase ends it with the farewell;
      anything else is parsed and handed to the chosen handler. Only `add` and
      `del` can change the book, and the only exceptions that reach the loop
      are the `AttributeError` of `change` with a phone argument and the
      `TypeError` of `hello` with arguments. */
  method Step(book: AddressBook, line: string) returns (quit: bool, out: Outcome)
    requires book.Valid()
    modifies book
    ensures book.Valid()
    ensures quit <==> IsQuit(line)
    ensures quit ==> out == Reply(Farewell)
    ensures quit || (Parse(line).handler != Add && Parse(line).handler != Delete) ==> unchanged(book)
    ensures out.Uncaught? ==>
              && !quit
              && ((out.error == AttributeError && Parse(line).handler == Change)
                  || (out.error == TypeError && Parse(line).handler == Hello))
    ensures old(book.PhonesValid()) ==> book.PhonesValid()
    // Any other line goes to the handler the parser chose, with its arguments.
    ensures !quit ==>
              var p := Parse(line);
              && (p.handler == Hello ==> out == FuncHello(p.args))
              && (p.handler == UnknownCommand ==> out == FuncUnknownCommand(p.args))
              && (p.handler == Change ==> out == FuncChange(book, p.args))
              && (p.handler == Search ==> out == FuncSearch(book, p.args))
              && (p.handler == ShowAll ==> out == FuncShowAll(book, p.args))
    ensures !quit && Parse(line).handler == Add ==>
              var args := Parse(line).args;
              && (|args| == 0 ==> out == Reply(NotEnoughParams) && unchanged(book))
              && (|args| >= 1 && !AllValidValues(args[1..]) ==> out == Reply(WrongPhoneFormat) && unchanged(book))
              && (|args| >= 1 && AllValidValues(args[1..]) ==>
                    && out == Reply(InfoSaved)
                    && args[0] in book.data
                    && fresh(book.data[args[0]])
                    && book.data[args[0]].phones == PhonesOf(args[1..])
                    && book.data == old(book.data)[args[0] := book.data[args[0]]]
                    && book.order == if args[0] in old(book.data) then old(book.order) else old(book.order) + [args[0]])
    ensures !quit && Parse(line).handler == Delete ==>
              var args := Parse(line).args;
              && (|args| == 0 ==> out == Reply(NotEnoughParams) && unchanged(book))
              && (|args| >= 1 ==>
                    && out == Reply("User " + args[0] + " has been deleted from the phone book")
                    && book.data == old(book.data) - {args[0]}
                    && book.order == RemoveKey(old(book.order), args[0]))
  {
    if IsQuit(line) {
      return true, Reply(Farewell);
    }
    quit := false;
    var p := Parse(line);
    match p.handler
    case Hello =>
      out := FuncHello(p.args);
    case Add =>
      out := FuncAdd(book, p.args);
    case Change =>
      out := FuncChange(book, p.args);
    case Search =>
      out := FuncSearch(book, p.args);
    case ShowAll =>
      out := FuncShowAll(book, p.args);
    case Delete =>
      out := FuncDelete(book, p.args);
    case UnknownCommand =>
      out := FuncUnknownCommand(p.args);
  }

  // ---------------------------------------------------------------------------
  // A client of the handler contracts

  /** Adding a name twice keeps only the second record, phones and all. */
  method AddTwiceKeepsLast()
  {
    var book := new AddressBook();
    assert IsValidPhone("1111111111") && IsValidPhone("2222222222");
    var first := FuncAdd(book, ["Alice", "1111111111"]);
    var second := FuncAdd(book, ["Alice", "2222222222"]);
    assert second == Reply(InfoSaved);
    assert book.order == ["Alice"] && book.data.Keys == {"Alice"};
    assert book.data["Alice"].phones == [Phone("2222222222")];
  }

  /** A name deleted and added again moves to the end of the listing order. */
  method ReAddGoesLast()
  {
    var book := new AddressBook();
    var a1 := FuncAdd(book, ["A"]);
    var b := FuncAdd(book, ["B"]);
    var gone := FuncDelete(book, ["A"]);
    assert book.order == RemoveKey(["A", "B"], "A");
    assert book.order == ["B"];
    var a2 := FuncAdd(book, ["A"]);
    assert book.order == ["B", "A"];
  }

  /** The listing of a contact with two phones. */
  lemma DanListing(r: Record)
    requires r.name == "Dan" && r.phones == [Phone("1111111111"), Phone("2222222222")]
    ensures r.Render() == "Name: Dan, phones: 1111111111, 2222222222"
  {
    var vs := Values(r.phones);
    assert vs == ["1111111111", "2222222222"];
    assert vs[1..] == ["2222222222"];
    assert Join(vs, ", ") == "1111111111, 2222222222";
    assert r.Render() == RecordHeader + "Dan" + PhonesHeader + Join(vs, ", ");
  }

  /** A malformed phone stores nothing, and then looking the name up gives
      the not-found message and deleting it is harmless. */
  method MalformedPhoneStoresNothing()
  {
    var book := new AddressBook();
    var carol := ["Carol", "123"];
    assert carol[1..] == ["123"] && !IsValidPhone(carol[1..][0]);
    var bad := FuncAdd(book, carol);
    assert bad == Reply(WrongPhoneFormat) && book.data == map[];
    var missing := FuncSearch(book, ["Carol"]);
    assert missing == Reply(NoSuchContact);
    var gone := FuncDelete(book, ["Carol"]);
    assert book.data == map[] && book.order == [];
  }
}
