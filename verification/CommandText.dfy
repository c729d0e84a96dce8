/** The text form of commands and replies: the builder prints it, the interpreter reads it. */
module CommandText {
  import opened Entities
  import opened Selection

  datatype Command = Command(name: string, options: seq<string>, params: seq<string>)

  // ---------- Printing ----------

  predicate HasSpace(s: string) {
    exists c :: c in s && IsSpace(c)
  }

  function Wrap(s: string): string {
    if HasSpace(s) then "<" + s + ">" else s
  }

  function Joined(words: seq<string>): string {
    if words == [] then ""
    else if |words| == 1 then words[0]
    else Joined(words[..|words| - 1]) + " " + words[|words| - 1]
  }

  function Wrapped(tokens: seq<string>): seq<string> {
    seq(|tokens|, i requires 0 <= i < |tokens| => Wrap(tokens[i]))
  }

  function Dashed(words: seq<string>): seq<string> {
    seq(|words|, i requires 0 <= i < |words| => "-" + words[i])
  }

  // The words of a command as they are printed
  function Words(c: Command): seq<string> {
    [Wrap(c.name)] + Dashed(Wrapped(c.options)) + Wrapped(c.params)
  }

  // Keeps wrapped tokens; options keep the order they were added in
  class CommandBuilder {
    var name: string
    var options: seq<string>
    var params: seq<string>

    constructor (com: Command)
      ensures name == Wrap(com.name) && options == Wrapped(com.options) && params == Wrapped(com.params)
    {
      name, options, params := "", [], [];
      new;
      SetCommand(com.name);
      for i := 0 to |com.options|
        invariant name == Wrap(com.name) && params == [] && options == Wrapped(com.options[..i])
      {
        AddOption(com.options[i]);
      }
      assert com.options[..|com.options|] == com.options;
      for i := 0 to |com.params|
        invariant name == Wrap(com.name) && options == Wrapped(com.options) && params == Wrapped(com.params[..i])
      {
        AddParameter(com.params[i]);
      }
      assert com.params[..|com.params|] == com.params;
    }

    method SetCommand(name: string)
      modifies this`name
      ensures this.name == Wrap(name)
    {
      this.name := Wrap(name);
    }

    method AddOption(opt: string)
      modifies this`options
      ensures options == old(options) + [Wrap(opt)]
    {
      options := options + [Wrap(opt)];
    }

    method AddParameter(param: string)
      modifies this`params
      ensures params == old(params) + [Wrap(param)]
    {
      params := params + [Wrap(param)];
    }

    method Build() returns (result: string)
      ensures result == Joined([name] + Dashed(options) + params)
    {
      ghost var opts := Dashed(options);
      result := name;
      for i := 0 to |options|
        invariant result == Joined([name] + opts[..i])
      {
        assert result + " -" + options[i] == result + " " + opts[i];
        result := result + " -" + options[i];
        JoinedSnoc([name] + opts[..i], opts[i]);
        assert [name] + opts[..i + 1] == [name] + opts[..i] + [opts[i]];
      }
      assert opts[..|options|] == opts && [name] + opts + params[..0] == [name] + opts;
      for i := 0 to |params|
        invariant result == Joined([name] + opts + params[..i])
      {
        result := result + " " + params[i];
        JoinedSnoc([name] + opts + params[..i], params[i]);
        assert [name] + opts + params[..i + 1] == [name] + opts + params[..i] + [params[i]];
      }
      assert params[..|params|] == params;
    }
  }

  lemma JoinedSnoc(words: seq<string>, w: string)
    requires words != []
    ensures Joined(words + [w]) == Joined(words) + " " + w
  {
    assert (words + [w])[..|words|] == words;
  }

  /** Prints a command. */
  method Print(com: Command) returns (text: string)
    ensures text == Joined(Words(com))
  {
    var builder := new CommandBuilder(com);
    text := builder.Build();
  }

  // ---------- Splitting a line into words ----------

  function DepthStep(c: char): int {
    if c == '<' then 1 else if c == '>' then -1 else 0
  }

  // Between words: white space is skipped and a word begins, even at the end of the text
  function SplitFrom(s: string): seq<string>
    decreases |s|, 1
  {
    if s == "" then [] else SkipShrinks(s); InWord("", SkipSpaces(s), 0)
  }

  // Inside a word, of which some is read: white space ends it outside angle brackets
  function InWord(word: string, s: string, depth: int): seq<string>
    decreases |s|, 0
  {
    if s == "" then [word]
    else if IsSpace(s[0]) && depth == 0 then [word] + SplitFrom(s[1..])
    else InWord(word + [s[0]], s[1..], depth + DepthStep(s[0]))
  }

  lemma {:induction false} SkipShrinks(s: string)
    ensures |SkipSpaces(s)| <= |s|
    ensures SkipSpaces(s) == s[|s| - |SkipSpaces(s)|..]
  {
    if s != "" && IsSpace(s[0]) {
      SkipShrinks(s[1..]);
    }
  }

  method SplitQuery(query: string) returns (args: seq<string>)
    ensures args == SplitFrom(query)
  {
    args := [];
    var isWord := false;
    var pos, wordPosBegin, cdCount := 0, 0, 0;
    while pos < |query|
      invariant 0 <= wordPosBegin <= pos <= |query|
      invariant !isWord ==> cdCount == 0 && args + SplitFrom(query[pos..]) == SplitFrom(query)
      invariant isWord ==> args + InWord(query[wordPosBegin..pos], query[pos..], cdCount) == SplitFrom(query)
      decreases |query| - pos, if isWord then 0 else 1
    {
      if !isWord {
        ghost var start := pos;
        while pos < |query| && IsSpace(query[pos])
          invariant start <= pos <= |query|
          invariant SkipSpaces(query[pos..]) == SkipSpaces(query[start..])
        {
          assert query[pos..][1..] == query[pos + 1..];
          pos := pos + 1;
        }
        isWord := true;
        wordPosBegin := pos;
        assert SkipSpaces(query[pos..]) == query[pos..] && query[pos..pos] == "";
      } else {
        assert query[pos..][1..] == query[pos + 1..];
        assert query[wordPosBegin..pos] + [query[pos]] == query[wordPosBegin..pos + 1];
        if IsSpace(query[pos]) && cdCount == 0 {
          isWord := false;
          ghost var word, rest := query[wordPosBegin..pos], SplitFrom(query[pos + 1..]);
          assert args + ([word] + rest) == args + [word] + rest;
          args := args + [query[wordPosBegin..pos]];
        }
        if query[pos] == '<' {
          cdCount := cdCount + 1;
        }
        if query[pos] == '>' {
          cdCount := cdCount - 1;
        }
        pos := pos + 1;
      }
    }
    assert query[pos..] == "";
    if isWord {
      args := args + [query[wordPosBegin..pos]];
    }
  }

  // ---------- Reading a command ----------

  predicate IsLineBreak(c: char) {
    c == '\n' || c == '\r'
  }

  predicate HasLineBreak(s: string) {
    exists c :: c in s && IsLineBreak(c)
  }

  // The last closing bracket before a line break
  function LastClose(s: string): (at: Option<nat>)
    ensures at.Some? ==> at.value < |s|
  {
    if s == "" || IsLineBreak(s[0]) then None
    else
      match LastClose(s[1..])
      case Some(k) => Some(k + 1)
      case None => if s[0] == '>' then Some(0) else None
  }

  // What the first opening bracket that is closed in its line encloses, or the word itself
  function FreeFromComposite(word: string): string {
    match Enclosed(word)
    case Some(inner) => inner
    case None => word
  }

  function Enclosed(s: string): Option<string> {
    if s == "" then None
    else if s[0] == '<' && LastClose(s[1..]).Some? then Some(s[1..][..LastClose(s[1..]).value])
    else Enclosed(s[1..])
  }

  predicate IsOptionWord(word: string) {
    word != "" && word[0] == '-' && !HasLineBreak(word)
  }

  function LeadingOptions(args: seq<string>): nat
    ensures LeadingOptions(args) <= |args|
  {
    if args != [] && IsOptionWord(args[0]) then 1 + LeadingOptions(args[1..]) else 0
  }

  function FreedOption(word: string): string
    requires word != ""
  {
    FreeFromComposite(word[1..])
  }

  lemma {:induction false} LeadingOptionWords(args: seq<string>)
    ensures forall i :: 0 <= i < LeadingOptions(args) ==> IsOptionWord(args[i])
    ensures LeadingOptions(args) < |args| ==> !IsOptionWord(args[LeadingOptions(args)])
  {
    if args != [] && IsOptionWord(args[0]) {
      LeadingOptionWords(args[1..]);
      forall i | 0 <= i < LeadingOptions(args) ensures IsOptionWord(args[i]) {
        assert i > 0 ==> args[i] == args[1..][i - 1];
      }
    }
  }

  // The command the words make: a name, the leading options, and the rest as parameters
  function FromWords(args: seq<string>): Command
    requires args != []
  {
    var rest := args[1..];
    var n := LeadingOptions(rest);
    LeadingOptionWords(rest);
    Command(FreeFromComposite(args[0]),
            seq(n, i requires 0 <= i < n => FreedOption(rest[i])),
            seq(|rest| - n, i requires 0 <= i < |rest| - n => FreeFromComposite(rest[n + i])))
  }

  function Interpreted(query: string): Option<Command> {
    var args := SplitFrom(query);
    if args == [] then None else Some(FromWords(args))
  }

  method Interpret(query: string) returns (result: Option<Command>)
    ensures result == Interpreted(query)
  {
    var args := SplitQuery(query);
    if args == [] {
      return None;
    }
    var name := FreeFromComposite(args[0]);
    var rest := args[1..];
    var options := ExtractOptions(rest);
    var params := ExtractParameters(rest[|options|..]);
    assert options == FromWords(args).options && params == FromWords(args).params;
    result := Some(Command(name, options, params));
  }

  method ExtractOptions(args: seq<string>) returns (options: seq<string>)
    ensures |options| == LeadingOptions(args)
    ensures forall i :: 0 <= i < |options| ==> IsOptionWord(args[i]) && options[i] == FreedOption(args[i])
  {
    options := [];
    var left := args;
    while left != [] && IsOptionWord(left[0])
      invariant |options| <= |args| && left == args[|options|..]
      invariant |options| + LeadingOptions(left) == LeadingOptions(args)
      invariant forall i :: 0 <= i < |options| ==> IsOptionWord(args[i]) && options[i] == FreedOption(args[i])
      decreases |left|
    {
      options := options + [FreedOption(left[0])];
      left := left[1..];
    }
  }

  method ExtractParameters(args: seq<string>) returns (params: seq<string>)
    ensures |params| == |args| && forall i :: 0 <= i < |args| ==> params[i] == FreeFromComposite(args[i])
  {
    params := [];
    for i := 0 to |args|
      invariant |params| == i && forall k :: 0 <= k < i ==> params[k] == FreeFromComposite(args[k])
    {
      params := params + [FreeFromComposite(args[i])];
    }
  }
}
