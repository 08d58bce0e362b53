/** The command registry: a map from command names to callables, each declared as
    taking an argument string or taking none, and `run_command`, which trims a
    line, splits it once at the first space and routes it to the callable. */
module CommandRegistry {
  import opened Text

  /** Identifies a registered Rust function; what the function does is not modelled. */
  type HandlerId = nat

  /** `CommandFunction`: a callable that takes the argument string, or one that
      takes nothing. */
  datatype CommandFunction = WithArgs(handler: HandlerId) | NoArgs(handler: HandlerId)

  /** What `run_command` does with a line. */
  datatype Outcome =
    | InvokedWithArgs(handler: HandlerId, args: string)
    | InvokedNoArgs(handler: HandlerId)
    | RequiresArguments(name: string)
    | RejectsArguments(name: string)
    | NotFound(name: string)
  {
    predicate Invoked() {
      InvokedWithArgs? || InvokedNoArgs?
    }
  }

  /** The lines `run_command` itself prints for an outcome: none when it invokes
      the callable, one error line naming the command otherwise. */
  function Report(o: Outcome): (printed: seq<string>)
    ensures o.Invoked() <==> printed == []
    ensures !o.Invoked() ==> |printed| == 1
  {
    match o
    case InvokedWithArgs(_, _) => []
    case InvokedNoArgs(_) => []
    case RequiresArguments(name) => ["Error: " + name + " requires arguments"]
    case RejectsArguments(name) => ["Error: " + name + " does not accept arguments"]
    case NotFound(name) => [name + " not found"]
  }

  /** `trim` followed by `splitn(2, ' ')`: the command name and, when the trimmed
      line has a space, everything after the first one. */
  function ParseCommandLine(line: string): (r: (string, Option<string>))
    ensures ' ' !in r.0
    ensures r.1.None? ==> r.0 == Trim(line)
    ensures r.1.Some? ==> Trim(line) == r.0 + " " + r.1.value
  {
    SplitOnce(Trim(line), ' ')
  }

  /** The decision `run_command` takes for a line against the registry's contents. */
  function Route(commands: map<string, CommandFunction>, line: string): Outcome {
    var (name, args) := ParseCommandLine(line);
    if name !in commands then NotFound(name)
    else match commands[name]
      case WithArgs(f) => if args.Some? then InvokedWithArgs(f, args.value) else RequiresArguments(name)
      case NoArgs(f) => if args.None? then InvokedNoArgs(f) else RejectsArguments(name)
  }

  /** The shared `COMMAND_REGISTRY`. */
  class Registry {
    var commands: map<string, CommandFunction>

    constructor()
      ensures commands == map[]
    {
      commands := map[];
    }

    /** `register_command_with_args`: inserts or replaces one entry. */
    method RegisterCommandWithArgs(name: string, f: HandlerId)
      modifies this
      ensures commands == old(commands)[name := WithArgs(f)]
    {
      commands := commands[name := WithArgs(f)];
    }

    /** `register_command`: inserts or replaces one entry. */
    method RegisterCommand(name: string, f: HandlerId)
      modifies this
      ensures commands == old(commands)[name := NoArgs(f)]
    {
      commands := commands[name := NoArgs(f)];
    }

    /** `run_command`: the outcome and the lines printed; the registry is not
        changed (the method modifies nothing). */
    method RunCommand(line: string) returns (o: Outcome, printed: seq<string>)
      ensures o == Route(commands, line)
      ensures printed == Report(o)
    {
      var (name, args) := ParseCommandLine(line);
      if name in commands {
        match commands[name]
        case WithArgs(f) =>
          if args.Some? {
            o := InvokedWithArgs(f, args.value);
          } else {
            o := RequiresArguments(name);
          }
        case NoArgs(f) =>
          if args.None? {
            o := InvokedNoArgs(f);
          } else {
            o := RejectsArguments(name);
          }
      } else {
        o := NotFound(name);
      }
      printed := Report(o);
    }
  }

  /** Routing in terms of the parsed line: an unknown name is reported and nothing
      is invoked; a known name invokes exactly its registered callable when the
      presence of arguments matches its kind, and reports the mismatch otherwise. */
  lemma RouteCases(commands: map<string, CommandFunction>, line: string)
    ensures var (name, args) := ParseCommandLine(line);
      var o := Route(commands, line);
      && (o.NotFound? <==> name !in commands)
      && (o.Invoked() ==> name in commands && o.handler == commands[name].handler)
      && (o.InvokedWithArgs? <==> name in commands && commands[name].WithArgs? && args.Some?)
      && (o.InvokedWithArgs? ==> o.args == args.value)
      && (o.InvokedNoArgs? <==> name in commands && commands[name].NoArgs? && args.None?)
      && (o.RequiresArguments? <==> name in commands && commands[name].WithArgs? && args.None?)
      && (o.RejectsArguments? <==> name in commands && commands[name].NoArgs? && args.Some?)
      && (!o.Invoked() ==> o.name == name)
  {
  }

  /** A name and an argument text, with any whitespace around the line, parse back
      into that name and text. */
  lemma ParseNameAndArgs(front: string, name: string, args: string, back: string)
    requires AllWhitespace(front) && AllWhitespace(back)
    requires name != [] && NoWhitespace(name)
    requires args != [] && !IsWhitespace(args[|args| - 1])
    ensures ParseCommandLine(front + (name + " " + args) + back) == (name, Some(args))
  {
    var line := name + [' '] + args;
    assert name + " " + args == line;
    TrimIgnoresPadding(front, line, back);
    TrimWordLine(name, args);
    NoWhitespaceNoSpace(name);
    SplitOnceOfJoined(name, ' ', args);
  }

  /** A lone name, with any whitespace around it, parses into that name and no
      arguments. */
  lemma ParseNameAlone(front: string, name: string, back: string)
    requires AllWhitespace(front) && AllWhitespace(back)
    requires name != [] && NoWhitespace(name)
    ensures ParseCommandLine(front + name + back) == (name, None)
  {
    TrimIgnoresPadding(front, name, back);
    TrimOfTrimmed(name);
    NoWhitespaceNoSpace(name);
  }

  /** Registering a command that takes arguments and then running its name with
      arguments invokes it with exactly those arguments (`echo hello world` calls
      the `echo` callable with `hello world`). */
  lemma RunRegisteredWithArgs(commands: map<string, CommandFunction>, name: string, f: HandlerId,
                              front: string, args: string, back: string)
    requires AllWhitespace(front) && AllWhitespace(back)
    requires name != [] && NoWhitespace(name)
    requires args != [] && !IsWhitespace(args[|args| - 1])
    ensures Route(commands[name := WithArgs(f)], front + (name + " " + args) + back) == InvokedWithArgs(f, args)
  {
    ParseNameAndArgs(front, name, args, back);
  }

  /** The same command run without arguments is refused with an error naming it. */
  lemma RunRegisteredWithArgsAlone(commands: map<string, CommandFunction>, name: string, f: HandlerId,
                                   front: string, back: string)
    requires AllWhitespace(front) && AllWhitespace(back)
    requires name != [] && NoWhitespace(name)
    ensures Route(commands[name := WithArgs(f)], front + name + back) == RequiresArguments(name)
  {
    ParseNameAlone(front, name, back);
  }

  /** Registering a command without arguments and running its bare name invokes it. */
  lemma RunRegisteredNoArgs(commands: map<string, CommandFunction>, name: string, f: HandlerId,
                            front: string, back: string)
    requires AllWhitespace(front) && AllWhitespace(back)
    requires name != [] && NoWhitespace(name)
    ensures Route(commands[name := NoArgs(f)], front + name + back) == InvokedNoArgs(f)
  {
    ParseNameAlone(front, name, back);
  }

  /** A command without arguments given some (`bsod now`) is refused and not invoked. */
  lemma RunRegisteredNoArgsGivenArgs(commands: map<string, CommandFunction>, name: string, f: HandlerId,
                                     front: string, args: string, back: string)
    requires AllWhitespace(front) && AllWhitespace(back)
    requires name != [] && NoWhitespace(name)
    requires args != [] && !IsWhitespace(args[|args| - 1])
    ensures Route(commands[name := NoArgs(f)], front + (name + " " + args) + back) == RejectsArguments(name)
  {
    ParseNameAndArgs(front, name, args, back);
  }

  /** Entries under other names do not affect how a line is routed. */
  lemma RouteIgnoresOtherEntries(commands: map<string, CommandFunction>, other: string,
                                 e: CommandFunction, line: string)
    requires other != ParseCommandLine(line).0
    ensures Route(commands[other := e], line) == Route(commands, line)
  {
  }
}
