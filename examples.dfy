/** Worked examples: the shorthand of a few durations, the speaking time of
    a few word counts, the dialogue filter on two lines of dialogue, and a
    whole script run through the interpreter. */
module Examples {
  import opened Wrappers
  import opened Tokens
  import opened Interpreter
  import opened Duration

  /** Durations under an hour: zero writes nothing, zero hours are skipped. */
  lemma ShorthandExamples()
    ensures Shorthand(0) == ""
    ensures Shorthand(90) == "1m 30s"
  {
  }

  /** Durations of an hour or more: every non-zero component is written,
      zero minutes and seconds are skipped. */
  lemma HourShorthandExamples()
    ensures Shorthand(3661) == "1h 1m 1s"
    ensures Shorthand(7200) == "2h"
  {
  }

  lemma WordCountToSecondsExamples()
    ensures WordCountToSeconds(10) == 25
    ensures WordCountToSeconds(1) == 3
    ensures WordCountToSeconds(0) == 0
  {
  }

  /** An all-capitals speaker cue is not dialogue. */
  lemma CapitalCueExample()
    ensures Words("HELLO world\n") == ["HELLO", "world"]
    ensures SpokenCount("HELLO world\n") == 1
  {
    assert "HELLO world\n" == "HELLO" + [' '] + ("world" + ['\n'] + "");
    CapitalCueWords();
    assert FullyCapitalized("HELLO");
    assert !IsUpper("world"[0]);
    assert CountSpoken(["HELLO", "world"]) == 1;
  }

  lemma CapitalCueWords()
    ensures Words("HELLO" + [' '] + ("world" + ['\n'] + "")) == ["HELLO", "world"]
  {
    OneWord("HELLO");
    OneWord("world");
    WordsJoin("world", '\n', "");
    WordsJoin("HELLO", ' ', "world" + ['\n'] + "");
  }

  /** A speaker cue followed by a colon is dialogue: the colon is not an
      upper-case letter, so the cue is not fully capitalised. */
  lemma ColonCueExample()
    ensures WordCount("JOHN: Hello there") == 3
    ensures SpokenCount("JOHN: Hello there") == 3
  {
    assert "JOHN: Hello there" == "JOHN:" + [' '] + ("Hello" + [' '] + "there");
    ColonCueWords();
    assert !IsUpper("JOHN:"[4]);
    assert !IsUpper("Hello"[1]);
    assert !IsUpper("there"[0]);
    assert CountSpoken(["JOHN:", "Hello", "there"]) == 3;
  }

  lemma ColonCueWords()
    ensures Words("JOHN:" + [' '] + ("Hello" + [' '] + "there")) == ["JOHN:", "Hello", "there"]
  {
    OneWord("JOHN:");
    HelloThereWords();
    WordsJoin("JOHN:", ' ', "Hello" + [' '] + "there");
  }

  lemma HelloThereWords()
    ensures Words("Hello" + [' '] + "there") == ["Hello", "there"]
  {
    OneWord("Hello");
    OneWord("there");
    WordsJoin("Hello", ' ', "there");
  }

  /** The events of a script made of a level-1 heading with text `title`,
      a block quote holding the paragraph `quote` and a code block holding
      `lines`. */
  function ScriptEvents(title: string, quote: string, lines: string): seq<Event> {
    [StartHeading(H1), Text(title), EndHeading(H1),
     StartBlockQuote, Other, Text(quote), Other, EndBlockQuote,
     StartCodeBlock, Text(lines), EndCodeBlock]
  }

  /** Such a script has the heading text as title, the parsed quote as
      blocked seconds, the dialogue words of the code block as dialogue, and
      the words of all three texts as word count. */
  lemma ScriptEventsResult(title: string, quote: string, lines: string, parse: string -> Option<nat>)
    ensures var st := Interp(ScriptEvents(title, quote, lines), parse);
            && st.title == title
            && st.blockedSeconds == QuoteSeconds(parse(quote))
            && st.dialogueWordCount == SpokenCount(lines)
            && st.wordCount == WordCount(title) + WordCount(quote) + WordCount(lines)
  {
    var h := [StartHeading(H1), Text(title), EndHeading(H1)];
    var q := [StartBlockQuote, Other, Text(quote), Other, EndBlockQuote];
    var c := [StartCodeBlock, Text(lines), EndCodeBlock];
    assert ScriptEvents(title, quote, lines) == [] + (h + q + c);
    InterpThenRun([], h + q + c, parse);
    ScriptRun(title, quote, lines, parse);
  }

  /** The heading, the block quote and the code block run from the initial
      state one after the other. */
  lemma ScriptRun(title: string, quote: string, lines: string, parse: string -> Option<nat>)
    ensures var h := [StartHeading(H1), Text(title), EndHeading(H1)];
            var q := [StartBlockQuote, Other, Text(quote), Other, EndBlockQuote];
            var c := [StartCodeBlock, Text(lines), EndCodeBlock];
            Run(Initial, h + q + c, parse)
              == Initial.(title := title,
                          wordCount := WordCount(title) + WordCount(quote) + WordCount(lines),
                          blockedSeconds := QuoteSeconds(parse(quote)),
                          dialogueWordCount := SpokenCount(lines))
  {
    var h := [StartHeading(H1), Text(title), EndHeading(H1)];
    var q := [StartBlockQuote, Other, Text(quote), Other, EndBlockQuote];
    var c := [StartCodeBlock, Text(lines), EndCodeBlock];
    RunAppend(Initial, h + q, c, parse);
    RunAppend(Initial, h, q, parse);
    HeadingRun(Initial, title, parse);
    assert "" + title == title;
    var afterHeading := Initial.(title := title, wordCount := WordCount(title));
    QuoteRun(afterHeading, quote, parse);
    var afterQuote := afterHeading.(wordCount := afterHeading.wordCount + WordCount(quote),
                                    blockedSeconds := QuoteSeconds(parse(quote)));
    CodeRun(afterQuote, lines, parse);
  }

  /** The events `es` applied to the state `st`, first to last. */
  function Run(st: Scan, es: seq<Event>, parse: string -> Option<nat>): Scan
    decreases |es|
  {
    if es == [] then st else Run(Step(st, es[0], parse), es[1..], parse)
  }

  /** Events after a prefix continue from the state the prefix leaves. */
  lemma {:induction false} InterpThenRun(a: seq<Event>, b: seq<Event>, parse: string -> Option<nat>)
    ensures Interp(a + b, parse) == Run(Interp(a, parse), b, parse)
    decreases |b|
  {
    if b == [] {
      assert a + b == a;
    } else {
      InterpSnoc(a, b[0], parse);
      assert a + b == (a + [b[0]]) + b[1..];
      InterpThenRun(a + [b[0]], b[1..], parse);
      assert Run(Interp(a, parse), b, parse)
        == Run(Step(Interp(a, parse), b[0], parse), b[1..], parse);
    }
  }

  lemma {:induction false} RunAppend(st: Scan, a: seq<Event>, b: seq<Event>, parse: string -> Option<nat>)
    ensures Run(st, a + b, parse) == Run(Run(st, a, parse), b, parse)
    decreases |a|
  {
    if a == [] {
      assert a + b == b;
    } else {
      assert (a + b)[0] == a[0] && (a + b)[1..] == a[1..] + b;
      RunAppend(Step(st, a[0], parse), a[1..], b, parse);
    }
  }

  /** The first event of a run is applied first. */
  lemma RunCons(st: Scan, e: Event, rest: seq<Event>, parse: string -> Option<nat>)
    ensures Run(st, [e] + rest, parse) == Run(Step(st, e, parse), rest, parse)
  {
    assert ([e] + rest)[0] == e && ([e] + rest)[1..] == rest;
  }

  lemma Run3(st: Scan, a: Event, b: Event, c: Event, parse: string -> Option<nat>)
    ensures Run(st, [a, b, c], parse) == Step(Step(Step(st, a, parse), b, parse), c, parse)
  {
    RunCons(Step(Step(st, a, parse), b, parse), c, [], parse);
    RunCons(Step(st, a, parse), b, [c], parse);
    RunCons(st, a, [b, c], parse);
  }

  lemma Run5(st: Scan, a: Event, b: Event, c: Event, d: Event, e: Event, parse: string -> Option<nat>)
    ensures Run(st, [a, b, c, d, e], parse)
      == Step(Step(Step(Step(Step(st, a, parse), b, parse), c, parse), d, parse), e, parse)
  {
    RunCons(st, a, [b, c, d, e], parse);
    RunCons(Step(st, a, parse), b, [c, d, e], parse);
    Run3(Step(Step(st, a, parse), b, parse), c, d, e, parse);
  }

  /** A level-1 heading holding `title`, outside the other contexts, appends
      `title` to the title and counts its words. */
  lemma HeadingRun(st: Scan, title: string, parse: string -> Option<nat>)
    requires !st.inBlockQuote && !st.inCodeBlock
    ensures Run(st, [StartHeading(H1), Text(title), EndHeading(H1)], parse)
      == st.(title := st.title + title, wordCount := st.wordCount + WordCount(title), inH1 := false)
  {
    Run3(st, StartHeading(H1), Text(title), EndHeading(H1), parse);
  }

  /** A block quote holding the paragraph `quote`, outside the other
      contexts and with an empty buffer, counts the words of `quote` and
      adds its parsed seconds. */
  lemma QuoteRun(st: Scan, quote: string, parse: string -> Option<nat>)
    requires !st.inH1 && !st.inCodeBlock && st.blockQuoteText == ""
    ensures Run(st, [StartBlockQuote, Other, Text(quote), Other, EndBlockQuote], parse)
      == st.(wordCount := st.wordCount + WordCount(quote),
             blockedSeconds := st.blockedSeconds + QuoteSeconds(parse(quote)),
             inBlockQuote := false)
  {
    Run5(st, StartBlockQuote, Other, Text(quote), Other, EndBlockQuote, parse);
    assert "" + quote == quote;
  }

  /** A code block holding `lines`, outside the other contexts, counts the
      words of `lines` and its dialogue words. */
  lemma CodeRun(st: Scan, lines: string, parse: string -> Option<nat>)
    requires !st.inH1 && !st.inBlockQuote
    ensures Run(st, [StartCodeBlock, Text(lines), EndCodeBlock], parse)
      == st.(wordCount := st.wordCount + WordCount(lines),
             dialogueWordCount := st.dialogueWordCount + SpokenCount(lines),
             inCodeBlock := false)
  {
    Run3(st, StartCodeBlock, Text(lines), EndCodeBlock, parse);
  }

  /** The script `# Title`, `> 5m`, and a code block holding `HELLO world`:
      with a duration parser that reads `5m` as 300 seconds, its title is
      `Title`, 300 seconds are blocked, one word (`world`) is dialogue, and
      it has four words in all. */
  lemma EndToEndExample(parse: string -> Option<nat>)
    requires parse("5m") == Some(300)
    ensures var st := Interp(ScriptEvents("Title", "5m", "HELLO world\n"), parse);
            && st.title == "Title"
            && st.blockedSeconds == 300
            && st.dialogueWordCount == 1
            && st.wordCount == 4
  {
    ScriptEventsResult("Title", "5m", "HELLO world\n", parse);
    CapitalCueExample();
    OneWordExamples();
  }

  lemma OneWordExamples()
    ensures WordCount("Title") == 1 && WordCount("5m") == 1
  {
    OneWord("Title");
    OneWord("5m");
  }

  lemma InterpSnoc(es: seq<Event>, e: Event, parse: string -> Option<nat>)
    ensures Interp(es + [e], parse) == Step(Interp(es, parse), e, parse)
  {
    assert (es + [e])[..|es|] == es;
  }
}
