/** The hard-wired command dispatcher `handle_command` the line editors call with
    the bytes of a finished line, and the `print_fart` banner it uses. Its effect is
    the list of lines it prints. */
module Commands {
  import opened Text
  import Utf8

  /** The eight lines `print_fart` prints. */
  function FartBanner(): (lines: seq<string>)
    ensures |lines| == 8
  {
    seq(8, k requires 0 <= k < 8 => BannerLine(k))
  }

  function BannerLine(k: nat): string
    requires k < 8
  {
    if k == 0 then @"$$$$$$$$\  $$$$$$\  $$$$$$$\  $$$$$$$$\ "
    else if k == 1 then @"$$  _____|$$  __$$\ $$  __$$\ \__$$  __|"
    else if k == 2 then @"$$ |      $$ /  $$ |$$ |  $$ |   $$ |   "
    else if k == 3 then @"$$$$$\    $$$$$$$$ |$$$$$$$  |   $$ |   "
    else if k == 4 then @"$$  __|   $$  __$$ |$$  __$$<    $$ |   "
    else if k == 5 then @"$$ |      $$ |  $$ |$$ |  $$ |   $$ |   "
    else if k == 6 then @"$$ |      $$ |  $$ |$$ |  $$ |   $$ |   "
    else @"\__|      \__|  \__|\__|  \__|   \__|   "
  }

  /** `print_fart`: the lines it prints and the success flag it returns, which is
      always `true`. */
  function PrintFart(): (r: (seq<string>, bool))
    ensures r.1
    ensures |r.0| == 8
  {
    (FartBanner(), true)
  }

  /** `handle_command`: decode the bytes as UTF-8, then dispatch the trimmed text;
      bytes that are not UTF-8 only print the parse error. */
  function HandleCommand(bytes: seq<byte>): (printed: seq<string>)
    ensures Utf8.Decode(bytes).None? ==> printed == ["Failed to parse command"]
    ensures Utf8.Decode(bytes).Some? ==> printed == Dispatch(Trim(Utf8.Decode(bytes).value))
  {
    match Utf8.Decode(bytes)
    case None => ["Failed to parse command"]
    case Some(text) => Dispatch(Trim(text))
  }

  /** The body of `handle_command` after decoding and trimming: split at the first
      space into `cmd` and `args` (which keeps the space), then match on `cmd`. */
  function Dispatch(trimmed: string): (printed: seq<string>)
    ensures printed != []
  {
    match FindFirst(trimmed, ' ')
    case Some(i) =>
      var cmd := trimmed[..i];
      var args := trimmed[i..];
      if cmd == "echo" then [args[1..]]
      else if cmd == "fart" then
        var (banner, ok) := PrintFart();
        if ok then banner + [""] else banner + ["Fart [failed]"]
      else ["Unknown command: " + cmd]
    case None =>
      if trimmed == "fart" then
        var (banner, ok) := PrintFart();
        if ok then banner + [""] else banner + ["noob"]
      else ["Unknown command: " + trimmed]
  }

  /** What the dispatch prints, stated through `splitn(2, ' ')`: `fart`, with or
      without arguments, gives the banner and an empty line (never a failure
      report); `echo` with arguments gives the text after the separating space;
      anything else reports the first word as unknown. */
  lemma DispatchCases(trimmed: string)
    ensures var (cmd, args) := SplitOnce(trimmed, ' ');
      && (cmd == "fart" ==> Dispatch(trimmed) == FartBanner() + [""])
      && (cmd == "echo" && args.Some? ==> Dispatch(trimmed) == [args.value])
      && (cmd != "fart" && (cmd != "echo" || args.None?) ==>
            Dispatch(trimmed) == ["Unknown command: " + cmd])
  {
    match FindFirst(trimmed, ' ')
    case Some(i) =>
      assert trimmed[i..][1..] == trimmed[i + 1..];
    case None =>
  }

  /** A line given as text reaches the dispatcher trimmed, so whitespace around
      it does not matter. */
  lemma HandleCommandOfText(front: string, line: string, back: string)
    requires AllWhitespace(front) && AllWhitespace(back)
    ensures HandleCommand(Utf8.Encode(front + line + back)) == Dispatch(Trim(line))
  {
    Utf8.DecodeEncode(front + line + back);
    TrimIgnoresPadding(front, line, back);
  }

  /** `echo`, a space and a text dispatch to printing exactly that text. */
  lemma DispatchEcho(message: string)
    ensures Dispatch("echo" + [' '] + message) == [message]
  {
    SplitOnceOfJoined("echo", ' ', message);
    DispatchCases("echo" + [' '] + message);
  }

  /** End to end: the encoding of `echo` and a text, padded with whitespace,
      prints exactly that text. */
  lemma HandleCommandEcho(front: string, message: string, back: string)
    requires AllWhitespace(front) && AllWhitespace(back)
    requires message != [] && !IsWhitespace(message[0]) && !IsWhitespace(message[|message| - 1])
    ensures HandleCommand(Utf8.Encode(front + ("echo " + message) + back)) == [message]
  {
    var line := "echo" + [' '] + message;
    assert "echo " + message == line;
    HandleCommandOfText(front, line, back);
    TrimWordLine("echo", message);
    DispatchEcho(message);
  }

  /** A bare `echo` (nothing after it but whitespace) is an unknown command. */
  lemma HandleCommandBareEcho(front: string, back: string)
    requires AllWhitespace(front) && AllWhitespace(back)
    ensures HandleCommand(Utf8.Encode(front + "echo" + back)) == ["Unknown command: " + "echo"]
  {
    HandleCommandOfText(front, "echo", back);
    BareEchoDispatch();
  }

  /** The trimmed line `echo` is reported as unknown. */
  lemma BareEchoDispatch()
    ensures Dispatch(Trim("echo")) == ["Unknown command: " + "echo"]
  {
    assert !IsWhitespace('e') && !IsWhitespace('o');
    TrimOfTrimmed("echo");
    assert FindFirst("echo", ' ') == None;
    assert "echo"[0] != "fart"[0];
  }

  /** An unknown command with arguments is reported by its first word only. */
  lemma HandleCommandUnknown(front: string, word: string, rest: string, back: string)
    requires AllWhitespace(front) && AllWhitespace(back)
    requires word != [] && NoWhitespace(word) && word != "echo" && word != "fart"
    requires rest != [] && !IsWhitespace(rest[|rest| - 1])
    ensures HandleCommand(Utf8.Encode(front + (word + " " + rest) + back)) == ["Unknown command: " + word]
  {
    var line := word + [' '] + rest;
    assert word + " " + rest == line;
    HandleCommandOfText(front, line, back);
    TrimWordLine(word, rest);
    UnknownDispatch(word, rest);
  }

  lemma UnknownDispatch(word: string, rest: string)
    requires NoWhitespace(word) && word != "echo" && word != "fart"
    ensures Dispatch(word + [' '] + rest) == ["Unknown command: " + word]
  {
    NoWhitespaceNoSpace(word);
    SplitOnceOfJoined(word, ' ', rest);
    DispatchCases(word + [' '] + rest);
  }
}
