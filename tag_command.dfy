/**
 * The `:tag` sub-language: `ls`, `mk TAG`, `rm TAG`, `ch TAG`, `root` and
 * `help|h|?`, read from a stream of whitespace-separated tokens.
 */
module TagCommand {
  import opened Wrappers

  /** A parsed tag sub-command. */
  datatype Command = List | Create(tag: string) | Remove(tag: string) | Checkout(tag: string) | Root | Help
  {
    /** The command names a tag. */
    predicate HasTag()
    {
      Create? || Remove? || Checkout?
    }
  }

  /** Why a token stream is not a tag sub-command. */
  datatype TagError = UnknownTagCmd(cmd: string) | UnspecifiedTag

  /** The sub-commands that take a tag argument. */
  predicate TakesTag(word: string)
  {
    word == "mk" || word == "rm" || word == "ch"
  }

  /** Every word the parser gives a meaning to. */
  predicate IsKeyword(word: string)
  {
    word == "ls" || TakesTag(word) || word == "root" || word == "help" || word == "h" || word == "?"
  }

  /** The command a tag-taking word builds around its argument. */
  function WithTag(word: string, tag: string): Command
    requires TakesTag(word)
  {
    if word == "mk" then Create(tag) else if word == "rm" then Remove(tag) else Checkout(tag)
  }

  /**
   * `parse_command`: the outcome, and the tokens the iterator still holds after it.
   * At most two tokens are taken, and `mk`/`rm`/`ch` without an argument is an error.
   */
  function ParseCommand(source: seq<string>): (r: (Result<Command, TagError>, seq<string>))
    ensures |source| - 2 <= |r.1| <= |source| && r.1 == source[|source| - |r.1|..]
    ensures r.0 == Ok(List) <==> |source| == 0 || source[0] == "ls"
    ensures r.0 == Ok(Root) <==> |source| > 0 && source[0] == "root"
    ensures r.0 == Ok(Help) <==> |source| > 0 && (source[0] == "help" || source[0] == "h" || source[0] == "?")
    ensures r.0 == Err(UnspecifiedTag) <==> |source| == 1 && TakesTag(source[0])
    ensures r.0.Err? && r.0.error.UnknownTagCmd? <==> |source| > 0 && !IsKeyword(source[0])
    ensures r.0.Err? && r.0.error.UnknownTagCmd? ==> r.0.error.cmd == source[0]
    ensures r.0.Ok? && r.0.value.HasTag() <==> |source| >= 2 && TakesTag(source[0])
    ensures r.0.Ok? && r.0.value.HasTag() ==> r.0.value == WithTag(source[0], source[1]) && r.1 == source[2..]
    ensures |source| == 0 ==> r.1 == []
    ensures |source| > 0 && !(TakesTag(source[0]) && |source| >= 2) ==> r.1 == source[1..]
  {
    if |source| == 0 then (Ok(List), source)
    else
      var word, rest := source[0], source[1..];
      if word == "ls" then (Ok(List), rest)
      else if TakesTag(word) then
        if |rest| == 0 then (Err(UnspecifiedTag), rest)
        else (Ok(WithTag(word, rest[0])), rest[1..])
      else if word == "root" then (Ok(Root), rest)
      else if word == "help" || word == "h" || word == "?" then (Ok(Help), rest)
      else (Err(UnknownTagCmd(word)), rest)
  }

  /**
   * The tokens that spell a command, as the help text lists them; parsing them, with
   * anything after, gives the command back and leaves what follows untouched.
   */
  function Unparse(c: Command): (tokens: seq<string>)
    ensures forall more :: ParseCommand(tokens + more) == (Ok(c), more)
  {
    match c
    case List => ["ls"]
    case Create(t) => ["mk", t]
    case Remove(t) => ["rm", t]
    case Checkout(t) => ["ch", t]
    case Root => ["root"]
    case Help => ["help"]
  }
}
