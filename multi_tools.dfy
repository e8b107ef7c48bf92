/**
 * `MultiToolsAgent`: the tool registry an agent is configured with, the two
 * prompt fields derived from it (the tool listing and the tool names), and the
 * guard in front of the language-model call of `ask`. The language-model chain
 * is a parameter; the tools' own behaviour (running Python, querying
 * Wikipedia) is not part of this model.
 */
module MultiTools {
  import opened Outcomes
  import opened PyStr

  /** A configured tool: its name and the description the prompt shows. */
  datatype Tool = Tool(name: string, description: string)

  /** The description of the Python tool (written in pieces so that each piece can be checked on its own). */
  const PythonReplDescription: string :=
    "Useful for executing " + "Python code to answer " + "computational questions"

  /** The description of the Wikipedia tool (written in pieces, as above). */
  const WikipediaDescription: string :=
    "Useful for looking up " + "factual information " + "about topics, " + "countries or people"

  /** The tools `_initialize_tools` configures, in order. */
  function Registry(): (tools: seq<Tool>)
  {
    [Tool("python repl", PythonReplDescription), Tool("wikipedia", WikipediaDescription)]
  }

  /** The Python tool's description is a single line. */
  lemma PythonReplSingleLine()
    ensures '\n' !in PythonReplDescription
  {
    assert '\n' !in "Useful for executing ";
    assert '\n' !in "Python code to answer ";
    assert '\n' !in "computational questions";
  }

  /** The Wikipedia tool's description is a single line. */
  lemma WikipediaSingleLine()
    ensures '\n' !in WikipediaDescription
  {
    assert '\n' !in "Useful for looking up ";
    assert '\n' !in "factual information ";
    assert '\n' !in "about topics, ";
    assert '\n' !in "countries or people";
  }

  /** One line of the tool listing: `f"{t.name}: {t.description}\n"`, without its newline. */
  function Entry(t: Tool): string
  {
    t.name + ": " + t.description
  }

  /** The lines of the tool listing, newline included. */
  function Lines(tools: seq<Tool>): (lines: seq<string>)
    ensures |lines| == |tools|
    ensures forall i | 0 <= i < |tools| :: lines[i] == Entry(tools[i]) + "\n"
  {
    seq(|tools|, i requires 0 <= i < |tools| => Entry(tools[i]) + "\n")
  }

  /** `tools_str`: the lines joined with the empty separator. */
  function Listing(tools: seq<Tool>): string
  {
    Join(Lines(tools), "")
  }

  /** `tool_names`: the names of the tools, in order. */
  function Names(tools: seq<Tool>): (names: seq<string>)
    ensures |names| == |tools|
    ensures forall i | 0 <= i < |tools| :: names[i] == tools[i].name
  {
    seq(|tools|, i requires 0 <= i < |tools| => tools[i].name)
  }

  /** Neither a name nor a description holds a newline. */
  predicate SingleLine(tools: seq<Tool>)
  {
    forall i | 0 <= i < |tools| :: '\n' !in tools[i].name && '\n' !in tools[i].description
  }

  /** The listing of a non-empty list is its first line followed by the listing of the rest. */
  lemma ListingCons(tools: seq<Tool>)
    requires |tools| >= 1
    ensures Listing(tools) == Entry(tools[0]) + "\n" + Listing(tools[1..])
  {
    assert Lines(tools)[1..] == Lines(tools[1..]);
  }

  /** The listing is empty exactly when there are no tools. */
  lemma ListingEmpty(tools: seq<Tool>)
    ensures Listing(tools) == "" <==> |tools| == 0
  {
    if |tools| >= 1 {
      ListingCons(tools);
    }
  }

  /** A non-empty listing ends with a newline. */
  lemma {:induction false} ListingEndsWithNewline(tools: seq<Tool>)
    requires |tools| >= 1
    ensures Listing(tools)[|Listing(tools)| - 1] == '\n'
  {
    ListingCons(tools);
    if |tools| >= 2 {
      ListingEndsWithNewline(tools[1..]);
    }
  }

  /** An entry of a single-line list holds no newline. */
  lemma EntrySingleLine(tools: seq<Tool>, i: int)
    requires SingleLine(tools) && 0 <= i < |tools|
    ensures '\n' !in Entry(tools[i])
  {
  }

  /** A newline-free line followed by a newline adds one newline to what follows. */
  lemma CountAfterLine(line: string, rest: string)
    requires '\n' !in line
    ensures multiset(line + "\n" + rest)['\n'] == multiset(rest)['\n'] + 1
  {
    assert multiset(line + "\n" + rest) == multiset(line) + multiset("\n") + multiset(rest);
    assert multiset(line)['\n'] == 0;
  }

  /** With single-line names and descriptions, the listing holds exactly one newline per tool. */
  lemma {:induction false} ListingNewlines(tools: seq<Tool>)
    requires SingleLine(tools)
    ensures multiset(Listing(tools))['\n'] == |tools|
  {
    if |tools| >= 1 {
      ListingCons(tools);
      ListingNewlines(tools[1..]);
      EntrySingleLine(tools, 0);
      CountAfterLine(Entry(tools[0]), Listing(tools[1..]));
    }
  }

  /**
   * With single-line names and descriptions, splitting the listing at
   * newlines gives back one entry per tool, in order, and a final empty piece
   * after the last newline.
   */
  lemma {:induction false} ListingLines(tools: seq<Tool>)
    requires SingleLine(tools)
    ensures Split(Listing(tools), "\n") == seq(|tools|, i requires 0 <= i < |tools| => Entry(tools[i])) + [""]
  {
    if |tools| == 0 {
      assert Find("", "\n") == -1;
    } else {
      ListingCons(tools);
      ListingLines(tools[1..]);
      EntrySingleLine(tools, 0);
      SplitCons(Entry(tools[0]), '\n', Listing(tools[1..]));
    }
  }

  /**
   * With single-line names and descriptions, the i-th line of the listing
   * starts with the i-th entry of `tool_names`, followed by ": ".
   */
  lemma NamesMatchLines(tools: seq<Tool>, i: int)
    requires SingleLine(tools)
    requires 0 <= i < |tools|
    ensures |Split(Listing(tools), "\n")| == |tools| + 1
    ensures Split(Listing(tools), "\n")[i] == Names(tools)[i] + ": " + tools[i].description
  {
    ListingLines(tools);
  }

  /** The registry: exactly "python repl" and "wikipedia", in that order, both single-line. */
  lemma RegistryContents(tools: seq<Tool>)
    requires tools == Registry()
    ensures Names(tools) == ["python repl", "wikipedia"]
    ensures SingleLine(tools)
    ensures Listing(tools) ==
              "python repl: " + PythonReplDescription + "\n" + "wikipedia: " + WikipediaDescription + "\n"
  {
    RegistrySingleLine(tools);
    RegistryListing(tools);
  }

  /** No name or description of the registry holds a newline. */
  lemma RegistrySingleLine(tools: seq<Tool>)
    requires tools == Registry()
    ensures SingleLine(tools)
  {
    PythonReplSingleLine();
    WikipediaSingleLine();
    assert '\n' !in "python repl" && '\n' !in "wikipedia";
  }

  /** The listing of two tools, line by line. */
  lemma RegistryListing(tools: seq<Tool>)
    requires |tools| == 2
    ensures Listing(tools) == Entry(tools[0]) + "\n" + Entry(tools[1]) + "\n"
  {
    ListingCons(tools);
    ListingCons(tools[1..]);
    assert tools[1..][1..] == [];
  }

  /** The registry's listing holds exactly two newlines. */
  lemma RegistryNewlines(tools: seq<Tool>)
    requires tools == Registry()
    ensures multiset(Listing(tools))['\n'] == 2
  {
    RegistrySingleLine(tools);
    ListingNewlines(tools);
  }

  /**
   * `MultiToolsAgent`. The constructor clears the three fields and then calls
   * `_initialize_tools`, after which the listing and the names are derived
   * from the registry; nothing changes them afterwards.
   */
  class MultiToolsAgent {
    var tools: seq<Tool>
    var toolsStr: string
    var toolNames: seq<string>

    /** The agent's invariant: the registry, and the two fields derived from it. */
    ghost predicate Valid()
      reads this
    {
      && tools == Registry()
      && toolsStr == Listing(tools)
      && toolNames == Names(tools)
    }

    /** `__init__`: empty defaults, then `_initialize_tools`. */
    constructor()
      ensures Valid()
      ensures tools == Registry() && toolNames == ["python repl", "wikipedia"]
      ensures toolsStr == "python repl: " + PythonReplDescription + "\n" + "wikipedia: " + WikipediaDescription + "\n"
    {
      tools := [];
      toolsStr := "";
      toolNames := [];
      new;
      InitializeTools();
      RegistryContents(tools);
    }

    /** `_initialize_tools`: install the registry and derive the listing and the names from it. */
    method InitializeTools()
      modifies this
      ensures Valid()
    {
      tools := Registry();
      toolsStr := Listing(tools);
      toolNames := Names(tools);
    }

    /**
     * `ask`. Only a missing question (`None`) is refused, before the language
     * model is asked; any string, the empty one included, is sent once,
     * together with the tool listing and the tool names, and a failure is
     * wrapped.
     */
    function Ask(question: Option<string>, llm: CompletionService): (o: Outcome<string>)
      reads this
      requires Valid()
      ensures question.None? <==> o.calls == []
      ensures question.None? ==> o.result == Err(MissingQuestion)
      ensures question.Some? ==> o.calls == [AgentRequest(Listing(Registry()), ["python repl", "wikipedia"], question.value)]
      ensures question.Some? ==> (o.result.Ok? <==> llm(o.calls[0]).Delivered?)
      ensures o.result.Ok? ==> llm(o.calls[0]) == Delivered(o.result.value)
      ensures o.result.Err? && question.Some? ==> o.result.error == AnswerFailed(llm(o.calls[0]).cause)
    {
      RegistryContents(tools);
      match question
      case None => Outcome(Err(MissingQuestion), [])
      case Some(q) =>
        var request := AgentRequest(toolsStr, toolNames, q);
        match llm(request)
        case Delivered(answer) => Outcome(Ok(answer), [request])
        case Failed(cause) => Outcome(Err(AnswerFailed(cause)), [request])
    }
  }

  /** Unlike `summarize`, `ask` lets the empty string through to the language model. */
  lemma EmptyQuestionIsAsked(agent: MultiToolsAgent, llm: CompletionService)
    requires agent.Valid()
    ensures |agent.Ask(Some(""), llm).calls| == 1
    ensures agent.Ask(None, llm) == Outcome(Err(MissingQuestion), [])
  {
  }
}
