/**
 * The command line between the driver and the mock machine: printed by
 * `buildRemoteCommand` (`nest-api/src/hosts/drivers/shell-quote.ts`), read back
 * by `shellWords` and `exec` (`nest-api/mock/sshd.ts`).
 *
 * The reader knows single quotes and blanks, and nothing of backslashes.  Every
 * line of the quoting grammar reads back as the words it was written from, and
 * the driver's lines do so exactly while no argument holds an apostrophe.
 */
module Shell {

  datatype Option<T> = None | Some(value: T)
  datatype Result<T> = Failure(reason: string) | Success(value: T)

  const QUOTE := '\''

  predicate IsBlank(c: char) {
    c == ' ' || c == '\t'
  }

  // ------------------------------------------------------------------ the reader

  datatype Scan = Scan(words: seq<string>, current: string, quoted: bool, pending: bool)

  const START := Scan([], "", false, false)

  /** One character further. */
  function Step(s: Scan, c: char): Scan {
    if s.quoted then
      if c == QUOTE then s.(quoted := false, pending := true) else s.(current := s.current + [c], pending := true)
    else if c == QUOTE then s.(quoted := true, pending := true)
    else if IsBlank(c) then Scan(Words(s), "", false, false)
    else s.(current := s.current + [c], pending := true)
  }

  /** The words so far, the pending one included. */
  function Words(s: Scan): seq<string> {
    if s.pending then s.words + [s.current] else s.words
  }

  function Fed(s: Scan, text: string): Scan
    decreases |text|
  {
    if text == "" then s else Fed(Step(s, text[0]), text[1..])
  }

  method ShellWords(command: string) returns (words: seq<string>)
    ensures words == Words(Fed(START, command))
  {
    words := [];
    var current := "";
    var quoted, pending := false, false;
    for i := 0 to |command|
      invariant Fed(Scan(words, current, quoted, pending), command[i..]) == Fed(START, command)
    {
      var c := command[i];
      assert command[i..][0] == c && command[i..][1..] == command[i + 1..];
      if quoted {
        if c == QUOTE { quoted := false; } else { current := current + [c]; }
        pending := true;
      } else if c == QUOTE {
        quoted := true;
        pending := true;
      } else if IsBlank(c) {
        if pending { words := words + [current]; }
        current := "";
        pending := false;
      } else {
        current := current + [c];
        pending := true;
      }
    }
    if pending { words := words + [current]; }
  }

  lemma {:induction false} FedConcat(s: Scan, a: string, b: string)
    ensures Fed(s, a + b) == Fed(Fed(s, a), b)
    decreases |a|
  {
    if a == "" {
      assert a + b == b;
    } else {
      assert (a + b)[1..] == a[1..] + b;
      FedConcat(Step(s, a[0]), a[1..], b);
    }
  }

  // ------------------------------------------------------------------ the grammar it reads

  /** A stretch of a word: in quotes, or bare. */
  datatype Piece = Bare(text: string) | Quoted(text: string)
  type Word = seq<Piece>
  /** A word and the blanks before it. */
  datatype Spaced = Spaced(gap: string, word: Word)

  predicate Plain(s: string) {
    s != "" && forall c | c in s :: c != QUOTE && !IsBlank(c)
  }

  predicate Proper(p: Piece) {
    match p
    case Quoted(text) => QUOTE !in text
    case Bare(text) => Plain(text)
  }

  predicate Blanks(gap: string) {
    forall c | c in gap :: IsBlank(c)
  }

  function PieceText(p: Piece): string {
    match p
    case Quoted(text) => [QUOTE] + text + [QUOTE]
    case Bare(text) => text
  }

  function WordText(w: Word): string {
    if w == [] then "" else PieceText(w[0]) + WordText(w[1..])
  }

  /** What a word says: its pieces, without their quotes. */
  function Meaning(w: Word): string {
    if w == [] then "" else w[0].text + Meaning(w[1..])
  }

  /** Proper words, each apart from the one before. */
  predicate Line(items: seq<Spaced>, first: bool) {
    items != [] ==>
      && Blanks(items[0].gap) && (first || items[0].gap != "")
      && items[0].word != [] && (forall p | p in items[0].word :: Proper(p))
      && Line(items[1..], false)
  }

  function LineText(items: seq<Spaced>): string {
    if items == [] then "" else items[0].gap + WordText(items[0].word) + LineText(items[1..])
  }

  function Meanings(items: seq<Spaced>): seq<string> {
    if items == [] then [] else [Meaning(items[0].word)] + Meanings(items[1..])
  }

  lemma {:induction false} FedQuoted(s: Scan, text: string)
    requires s.quoted && QUOTE !in text
    ensures Fed(s, text + [QUOTE]) == Scan(s.words, s.current + text, false, true)
    decreases |text|
  {
    var whole := text + [QUOTE];
    if text == "" {
      assert whole == [QUOTE] && whole[1..] == "";
      assert s.current + text == s.current;
    } else {
      assert whole[1..] == text[1..] + [QUOTE];
      FedQuoted(Step(s, text[0]), text[1..]);
      assert (s.current + [text[0]]) + text[1..] == s.current + text;
    }
  }

  lemma {:induction false} FedBare(s: Scan, text: string)
    requires !s.quoted && Plain(text)
    ensures Fed(s, text) == Scan(s.words, s.current + text, false, true)
    decreases |text|
  {
    PlainStep(s, text);
    if |text| == 1 {
      assert text[1..] == "";
    } else {
      FedBare(Step(s, text[0]), text[1..]);
      assert (s.current + [text[0]]) + text[1..] == s.current + text;
    }
  }

  lemma PlainStep(s: Scan, text: string)
    requires !s.quoted && Plain(text)
    ensures Step(s, text[0]) == Scan(s.words, s.current + [text[0]], false, true)
    ensures |text| > 1 ==> Plain(text[1..])
    ensures |text| == 1 ==> text == [text[0]]
  {
    assert text[0] in text;
    forall c | c in text[1..] ensures c in text {
      var i :| 0 <= i < |text[1..]| && text[1..][i] == c;
      assert text[i + 1] == c;
    }
  }

  lemma FedPiece(s: Scan, p: Piece)
    requires !s.quoted && Proper(p)
    ensures Fed(s, PieceText(p)) == Scan(s.words, s.current + p.text, false, true)
  {
    match p
    case Quoted(text) =>
      var whole := [QUOTE] + text + [QUOTE];
      assert whole[1..] == text + [QUOTE];
      FedQuoted(Step(s, QUOTE), text);
    case Bare(text) =>
      FedBare(s, text);
  }

  lemma {:induction false} FedWord(s: Scan, w: Word)
    requires !s.quoted && w != [] && forall p | p in w :: Proper(p)
    ensures Fed(s, WordText(w)) == Scan(s.words, s.current + Meaning(w), false, true)
    decreases |w|
  {
    var p, rest := w[0], w[1..];
    var next := Scan(s.words, s.current + p.text, false, true);
    assert Proper(p) && forall q | q in rest :: q in w;
    WordCons(w);
    hide *;
    FedPiece(s, p);
    FedConcat(s, PieceText(p), WordText(rest));
    Regroup(s.current, p.text, Meaning(rest));
    if rest == [] {
      FedNothing(next);
    } else {
      FedWord(next, rest);
    }
  }

  lemma Regroup(a: string, b: string, c: string)
    ensures (a + b) + c == a + (b + c)
  {
  }

  lemma WordCons(w: Word)
    requires w != []
    ensures WordText(w) == PieceText(w[0]) + WordText(w[1..]) && Meaning(w) == w[0].text + Meaning(w[1..])
  {
  }

  lemma FedNothing(s: Scan)
    ensures Fed(s, WordText([])) == s && s.current + Meaning([]) == s.current
  {
  }

  lemma {:induction false} FedBlanks(s: Scan, gap: string)
    requires !s.quoted && Blanks(gap) && (s.pending || s.current == "")
    ensures gap != "" ==> Fed(s, gap) == Scan(Words(s), "", false, false)
    decreases |gap|
  {
    if gap != "" {
      assert IsBlank(gap[0]);
      FedBlanks(Step(s, gap[0]), gap[1..]);
    }
  }

  /** Between words, or at the end of one. */
  predicate Ready(s: Scan) {
    !s.quoted && (s.pending || s.current == "")
  }

  lemma FedSpaced(s: Scan, it: Spaced)
    requires Ready(s) && Blanks(it.gap) && (!s.pending || it.gap != "")
    requires it.word != [] && forall p | p in it.word :: Proper(p)
    ensures Fed(s, it.gap + WordText(it.word)) == Scan(Words(s), Meaning(it.word), false, true)
  {
    var apart := Fed(s, it.gap);
    FedBlanks(s, it.gap);
    assert apart.words == Words(s) && apart.current == "" && !apart.quoted;
    FedConcat(s, it.gap, WordText(it.word));
    hide *;
    FedWord(apart, it.word);
    assert "" + Meaning(it.word) == Meaning(it.word);
  }

  lemma {:induction false} FedLine(s: Scan, items: seq<Spaced>)
    requires Ready(s) && Line(items, !s.pending)
    ensures Words(Fed(s, LineText(items))) == Words(s) + Meanings(items) && Ready(Fed(s, LineText(items)))
    decreases |items|
  {
    if items == [] {
      NoLine(s);
    } else {
      LineBegins(s, items);
    }
    hide *;
    if items != [] {
      var it, rest := items[0], items[1..];
      var read := Scan(Words(s), Meaning(it.word), false, true);
      FedSpaced(s, it);
      FedConcat(s, it.gap + WordText(it.word), LineText(rest));
      FedLine(read, rest);
      RegroupWords(Words(s), [Meaning(it.word)], Meanings(rest));
    }
  }

  lemma NoLine(s: Scan)
    ensures Words(Fed(s, LineText([]))) == Words(s) + Meanings([]) && Fed(s, LineText([])) == s
  {
  }

  /** The first word of a line, and where it leaves the scan. */
  lemma LineBegins(s: Scan, items: seq<Spaced>)
    requires items != [] && Ready(s) && Line(items, !s.pending)
    ensures var it, rest := items[0], items[1..];
            var read := Scan(Words(s), Meaning(it.word), false, true);
            && LineText(items) == it.gap + WordText(it.word) + LineText(rest)
            && Meanings(items) == [Meaning(it.word)] + Meanings(rest)
            && Ready(read) && Words(read) == Words(s) + [Meaning(it.word)] && Line(rest, !read.pending)
            && Blanks(it.gap) && (!s.pending || it.gap != "")
            && it.word != [] && forall p | p in it.word :: Proper(p)
  {
  }

  lemma RegroupWords(a: seq<string>, b: seq<string>, c: seq<string>)
    ensures (a + b) + c == a + (b + c)
  {
  }

  /**
   * Words printed in any mix of quoted and bare pieces, and blanks around them,
   * read back as themselves: an empty pair of quotes is an empty word, and a
   * blank inside quotes is no separator.
   */
  lemma PrintedReadsBack(items: seq<Spaced>, trailing: string)
    requires Line(items, true) && Blanks(trailing)
    ensures Words(Fed(START, LineText(items) + trailing)) == Meanings(items)
  {
    FedLine(START, items);
    assert [] + Meanings(items) == Meanings(items);
    FedConcat(START, LineText(items), trailing);
    FedBlanks(Fed(START, LineText(items)), trailing);
  }

  // ------------------------------------------------------------------ no word holds an apostrophe

  ghost predicate Bald(s: Scan) {
    QUOTE !in s.current && forall w | w in s.words :: QUOTE !in w
  }

  lemma {:induction false} FedStaysBald(s: Scan, text: string)
    requires Bald(s)
    ensures Bald(Fed(s, text))
    decreases |text|
  {
    if text != "" { FedStaysBald(Step(s, text[0]), text[1..]); }
  }

  /** Whatever the line, the reader puts no apostrophe in a word. */
  lemma WordsHoldNoQuote(text: string)
    ensures forall w | w in Words(Fed(START, text)) :: QUOTE !in w
  {
    FedStaysBald(START, text);
  }

  // ------------------------------------------------------------------ the driver's lines

  /** Every apostrophe closes the quotes, is escaped, and opens them again. */
  function Escaped(argument: string): string {
    if argument == "" then ""
    else (if argument[0] == QUOTE then [QUOTE, '\\', QUOTE, QUOTE] else [argument[0]]) + Escaped(argument[1..])
  }

  function QuoteArgument(argument: string): Result<string> {
    if '\0' in argument then Failure("Argument contains a NUL byte and cannot be passed to a command.")
    else Success(Quote(argument))
  }

  function Quote(argument: string): string {
    [QUOTE] + Escaped(argument) + [QUOTE]
  }

  const ALLOWED_PROGRAMS := ["du", "df", "stat", "tail", "sha256sum", "git", "readlink", "id"]
  const NICE_MIN := 0
  const NICE_MAX := 19

  function Digit(n: nat): char
    requires n < 10
  {
    ('0' as int + n) as char
  }

  /** `String(nice)` in the range the builder renders. */
  function Decimal(n: nat): string
    requires n <= NICE_MAX
  {
    if n < 10 then [Digit(n)] else ['1', Digit(n - 10)]
  }

  function QuoteAll(args: seq<string>): Result<seq<string>> {
    if args == [] then Success([])
    else
      match QuoteArgument(args[0])
      case Failure(reason) => Failure(reason)
      case Success(head) =>
        match QuoteAll(args[1..])
        case Failure(reason) => Failure(reason)
        case Success(tail) => Success([head] + tail)
  }

  /** `[program, ...quoted].join(" ")` past the first element. */
  function SpacedOut(quoted: seq<string>): string {
    if quoted == [] then "" else " " + quoted[0] + SpacedOut(quoted[1..])
  }

  /** `buildRemoteCommand` without sudo. */
  function RemoteCommand(program: string, args: seq<string>, nice: Option<int>): Result<string> {
    if program !in ALLOWED_PROGRAMS then Failure("Program is not on the allowlist.")
    else
      match QuoteAll(args)
      case Failure(reason) => Failure(reason)
      case Success(quoted) =>
        var command := program + SpacedOut(quoted);
        match nice
        case None => Success(command)
        case Some(n) =>
          if !(NICE_MIN <= n <= NICE_MAX) then Failure("nice must be an integer between 0 and 19.")
          else Success("nice" + (" " + "-n" + (" " + Quote(Decimal(n)) + (" " + command))))
  }

  /** What `exec` runs: the scan's courtesy is cut off the front. */
  function WithoutNice(words: seq<string>): seq<string> {
    if |words| >= 2 && words[0] == "nice" && words[1] == "-n" then words[if |words| < 3 then |words| else 3..]
    else words
  }

  lemma AllowedIsPlain(program: string)
    requires program in ALLOWED_PROGRAMS
    ensures Plain(program) && program != "nice"
  {
    assert "du"[0] == 'd' && "nice"[0] == 'n';
  }

  lemma {:induction false} EscapedNothing(argument: string)
    requires QUOTE !in argument
    ensures Escaped(argument) == argument
  {
    if argument != "" { EscapedNothing(argument[1..]); }
  }

  function QuotedWords(args: seq<string>): seq<Spaced> {
    if args == [] then [] else [Spaced(" ", [Quoted(args[0])])] + QuotedWords(args[1..])
  }

  /** `text` is a proper line, and says `words`. */
  predicate Says(items: seq<Spaced>, first: bool, text: string, words: seq<string>) {
    Line(items, first) && LineText(items) == text && Meanings(items) == words
  }

  lemma SaysCons(it: Spaced, rest: seq<Spaced>, first: bool, text: string, words: seq<string>)
    requires Blanks(it.gap) && (first || it.gap != "") && it.word != [] && (forall p | p in it.word :: Proper(p))
    requires Says(rest, false, text, words)
    ensures Says([it] + rest, first, it.gap + WordText(it.word) + text, [Meaning(it.word)] + words)
  {
    var items := [it] + rest;
    assert items[0] == it && items[1..] == rest;
  }

  /** A word of one piece in front of a line. */
  lemma OnePieceSays(gap: string, p: Piece, rest: seq<Spaced>, first: bool, text: string, words: seq<string>)
    requires Blanks(gap) && (first || gap != "") && Proper(p) && Says(rest, false, text, words)
    ensures Says([Spaced(gap, [p])] + rest, first, gap + PieceText(p) + text, [p.text] + words)
  {
    var w := [p];
    assert w[1..] == [];
    assert WordText(w) == PieceText(p) + "" == PieceText(p);
    assert Meaning(w) == p.text + "" == p.text;
    hide Says;
    SaysCons(Spaced(gap, w), rest, first, text, words);
  }

  lemma {:induction false} ArgumentsAreALine(args: seq<string>)
    requires QuoteAll(args).Success? && forall a | a in args :: QUOTE !in a
    ensures Says(QuotedWords(args), false, SpacedOut(QuoteAll(args).value), args)
  {
    if args != [] {
      var p, rest := Quoted(args[0]), QuotedWords(args[1..]);
      ArgumentsAreALine(args[1..]);
      EscapedNothing(args[0]);
      assert Proper(p) && Blanks(" ") && QuoteArgument(args[0]) == Success(PieceText(p));
      var head, tail := PieceText(p), QuoteAll(args[1..]).value;
      assert QuoteAll(args).value == [head] + tail && ([head] + tail)[1..] == tail;
      assert SpacedOut([head] + tail) == " " + head + SpacedOut(tail);
      hide Says;
      OnePieceSays(" ", p, rest, false, SpacedOut(tail), args[1..]);
      assert args == [args[0]] + args[1..];
    }
  }

  function CommandWords(gap: string, program: string, args: seq<string>): seq<Spaced> {
    [Spaced(gap, [Bare(program)])] + QuotedWords(args)
  }

  lemma CommandSays(gap: string, program: string, args: seq<string>, first: bool)
    requires Blanks(gap) && (first || gap != "") && Plain(program)
    requires QuoteAll(args).Success? && forall a | a in args :: QUOTE !in a
    ensures Says(CommandWords(gap, program, args), first,
                 gap + (program + SpacedOut(QuoteAll(args).value)), [program] + args)
  {
    ArgumentsAreALine(args);
    assert Proper(Bare(program)) && PieceText(Bare(program)) == program;
    assert CommandWords(gap, program, args) == [Spaced(gap, [Bare(program)])] + QuotedWords(args);
    var spaced := SpacedOut(QuoteAll(args).value);
    hide *;
    OnePieceSays(gap, Bare(program), QuotedWords(args), first, spaced, args);
    Regroup(gap, program, spaced);
  }

  function NiceWords(n: nat, program: string, args: seq<string>): seq<Spaced>
    requires n <= NICE_MAX
  {
    [Spaced("", [Bare("nice")])] + ([Spaced(" ", [Bare("-n")])] + ([Spaced(" ", [Quoted(Decimal(n))])]
      + CommandWords(" ", program, args)))
  }

  lemma LiteralsArePlain(n: nat)
    requires n <= NICE_MAX
    ensures Proper(Bare("nice")) && Proper(Bare("-n")) && Proper(Quoted(Decimal(n)))
    ensures Blanks("") && Blanks(" ")
  {
    assert Plain("nice") && Plain("-n");
  }

  lemma NiceSays(n: nat, program: string, args: seq<string>)
    requires n <= NICE_MAX && Plain(program)
    requires QuoteAll(args).Success? && forall a | a in args :: QUOTE !in a
    ensures Says(NiceWords(n, program, args), true,
                 "nice" + (" " + "-n" + (" " + Quote(Decimal(n))
                   + (" " + (program + SpacedOut(QuoteAll(args).value))))),
                 ["nice"] + (["-n"] + ([Decimal(n)] + ([program] + args))))
  {
    LiteralsArePlain(n);
    var command := CommandWords(" ", program, args);
    var niced := [Spaced(" ", [Quoted(Decimal(n))])] + command;
    var flagged := [Spaced(" ", [Bare("-n")])] + niced;
    assert NiceWords(n, program, args) == [Spaced("", [Bare("nice")])] + flagged;
    EscapedNothing(Decimal(n));
    var quoted := Quote(Decimal(n));
    assert PieceText(Quoted(Decimal(n))) == quoted && PieceText(Bare("-n")) == "-n";
    assert "" + PieceText(Bare("nice")) == "nice";
    hide *;
    var text := program + SpacedOut(QuoteAll(args).value);
    var words := [program] + args;
    CommandSays(" ", program, args, false);
    OnePieceSays(" ", Quoted(Decimal(n)), command, false, " " + text, words);
    OnePieceSays(" ", Bare("-n"), niced, false, " " + quoted + (" " + text), [Decimal(n)] + words);
    OnePieceSays("", Bare("nice"), flagged, true,
                 " " + "-n" + (" " + quoted + (" " + text)), ["-n"] + ([Decimal(n)] + words));
  }

  lemma SaidReadsBack(items: seq<Spaced>, text: string, words: seq<string>)
    requires Says(items, true, text, words)
    ensures Words(Fed(START, text)) == words
  {
    assert Blanks("") && text + "" == text;
    PrintedReadsBack(items, "");
  }

  lemma WithoutNiceCuts(number: string, words: seq<string>)
    ensures WithoutNice(["nice"] + (["-n"] + ([number] + words))) == words
    ensures words != [] && words[0] != "nice" ==> WithoutNice(words) == words
  {
    var all := ["nice"] + (["-n"] + ([number] + words));
    assert all[0] == "nice" && all[1] == "-n" && all[3..] == words;
  }

  lemma ReadBackPlain(program: string, args: seq<string>, nice: Option<int>)
    requires RemoteCommand(program, args, nice).Success? && forall a | a in args :: QUOTE !in a
    ensures WithoutNice(Words(Fed(START, RemoteCommand(program, args, nice).value))) == [program] + args
  {
    var text := RemoteCommand(program, args, nice).value;
    var command := program + SpacedOut(QuoteAll(args).value);
    AllowedIsPlain(program);
    assert nice.None? ==> text == "" + command;
    assert nice.Some? ==> text == "nice" + (" " + "-n" + (" " + Quote(Decimal(nice.value)) + (" " + command)));
    assert Blanks("");
    hide *;
    match nice {
      case None =>
        CommandSays("", program, args, true);
        SaidReadsBack(CommandWords("", program, args), text, [program] + args);
        WithoutNiceCuts("", [program] + args);
      case Some(n) =>
        NiceSays(n, program, args);
        SaidReadsBack(NiceWords(n, program, args), text, ["nice"] + (["-n"] + ([Decimal(n)] + ([program] + args))));
        WithoutNiceCuts(Decimal(n), [program] + args);
    }
  }

  /**
   * The machine runs the command the driver meant, prefix or no prefix, exactly
   * when no argument holds an apostrophe: the driver's escape is a backslash,
   * and the reader takes a backslash for itself.
   */
  lemma MachineReadsWhatTheDriverMeant(program: string, args: seq<string>, nice: Option<int>)
    requires RemoteCommand(program, args, nice).Success?
    ensures WithoutNice(Words(Fed(START, RemoteCommand(program, args, nice).value))) == [program] + args
      <==> forall a | a in args :: QUOTE !in a
  {
    if forall a | a in args :: QUOTE !in a {
      ReadBackPlain(program, args, nice);
    } else {
      WordsHoldNoQuote(RemoteCommand(program, args, nice).value);
      var a :| a in args && QUOTE in a;
      assert a in [program] + args;
    }
  }

  /** The shortest case: the one argument `'` does not come back. */
  lemma ApostropheIsLost(program: string)
    requires program in ALLOWED_PROGRAMS
    ensures RemoteCommand(program, [[QUOTE]], None).Success?
    ensures WithoutNice(Words(Fed(START, RemoteCommand(program, [[QUOTE]], None).value))) != [program, [QUOTE]]
  {
    assert QuoteArgument([QUOTE]).Success?;
    assert [[QUOTE]][1..] == [];
    assert QuoteAll([[QUOTE]]).Success?;
    MachineReadsWhatTheDriverMeant(program, [[QUOTE]], None);
    assert [program] + [[QUOTE]] == [program, [QUOTE]];
    assert [QUOTE] in [[QUOTE]];
  }
}
