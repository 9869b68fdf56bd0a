/** The screenplay interpreter of `build_script`: one forward pass over the
    markdown events of a script that collects its title, counts its words and
    its dialogue words, and adds up the durations written in block quotes. */
module Interpreter {
  import opened Wrappers
  import opened Tokens

  datatype HeadingLevel = H1 | H2 | H3 | H4 | H5 | H6

  /** The markdown events the interpreter tells apart. `Other` stands for
      every other event kind and every other start or end tag. */
  datatype Event =
    | StartBlockQuote
    | EndBlockQuote
    | StartHeading(level: HeadingLevel)
    | EndHeading(level: HeadingLevel)
    | StartCodeBlock
    | EndCodeBlock
    | Text(content: string)
    | Other

  /** The result record: `text` is the whole document, kept for rendering. */
  datatype Script = Script(
    title: string,
    text: string,
    wordCount: nat,
    dialogueWordCount: nat,
    blockedSeconds: nat)

  /** The interpreter's local state, one field per local variable. */
  datatype Scan = Scan(
    title: string,
    wordCount: nat,
    blockedSeconds: nat,
    inBlockQuote: bool,
    blockQuoteText: string,
    inH1: bool,
    inCodeBlock: bool,
    dialogueWordCount: nat)

  const Initial := Scan("", 0, 0, false, "", false, false, 0)

  /** The seconds a block quote adds: the parsed duration, or nothing when
      the text does not parse. */
  function QuoteSeconds(parsed: Option<nat>): nat {
    match parsed
    case Some(secs) => secs
    case None => 0
  }

  /** The effect of one event. `parse` is the duration parser applied to the
      text of a block quote when the quote ends. */
  function Step(st: Scan, e: Event, parse: string -> Option<nat>): Scan {
    match e
    case StartBlockQuote => st.(inBlockQuote := true)
    case StartHeading(level) => if level == H1 then st.(inH1 := true) else st
    case StartCodeBlock => st.(inCodeBlock := true)
    case EndBlockQuote =>
      st.(blockedSeconds := st.blockedSeconds + QuoteSeconds(parse(st.blockQuoteText)),
          blockQuoteText := "",
          inBlockQuote := false)
    case EndHeading(level) => if level == H1 then st.(inH1 := false) else st
    case EndCodeBlock => st.(inCodeBlock := false)
    case Text(s) =>
      st.(wordCount := st.wordCount + WordCount(s),
          blockQuoteText := if st.inBlockQuote then st.blockQuoteText + s else st.blockQuoteText,
          title := if st.inH1 then st.title + s else st.title,
          dialogueWordCount :=
            if st.inCodeBlock then st.dialogueWordCount + SpokenCount(s) else st.dialogueWordCount)
    case Other => st
  }

  /** The state after the events `es`, from the initial state. */
  function Interp(es: seq<Event>, parse: string -> Option<nat>): Scan
    decreases |es|
  {
    if es == [] then Initial
    else Step(Interp(es[..|es| - 1], parse), es[|es| - 1], parse)
  }

  function ToScript(st: Scan, text: string): Script {
    Script(st.title, text, st.wordCount, st.dialogueWordCount, st.blockedSeconds)
  }

  /*** Reference definitions ***/

  /** The three contexts the interpreter tracks, each with one flag. */
  datatype Context = BlockQuote | Heading1 | CodeBlock

  predicate Opens(e: Event, c: Context) {
    match c
    case BlockQuote => e == StartBlockQuote
    case Heading1 => e == StartHeading(H1)
    case CodeBlock => e == StartCodeBlock
  }

  predicate Closes(e: Event, c: Context) {
    match c
    case BlockQuote => e == EndBlockQuote
    case Heading1 => e == EndHeading(H1)
    case CodeBlock => e == EndCodeBlock
  }

  function InContext(st: Scan, c: Context): bool {
    match c
    case BlockQuote => st.inBlockQuote
    case Heading1 => st.inH1
    case CodeBlock => st.inCodeBlock
  }

  /** "Last writer wins": after `es`, context `c` is open when some event
      of `es` opened it and no later event closed it. Depth is not counted. */
  ghost predicate OpenAfter(es: seq<Event>, c: Context) {
    exists i :: 0 <= i < |es| && Opens(es[i], c) && forall j :: i < j < |es| ==> !Closes(es[j], c)
  }

  /** The contents of the text events of `es` from position `lo` on that
      occur while context `c` is open, in order. */
  ghost function TextsIn(es: seq<Event>, c: Context, lo: nat): seq<string>
    decreases |es|
  {
    if |es| <= lo then []
    else
      var p := es[..|es| - 1];
      TextsIn(p, c, lo) + (if es[|es| - 1].Text? && OpenAfter(p, c) then [es[|es| - 1].content] else [])
  }

  /** All the strings of `ss`, in order, with no separator. */
  function Concat(ss: seq<string>): string {
    if ss == [] then "" else Concat(ss[..|ss| - 1]) + ss[|ss| - 1]
  }

  /** The dialogue words of a sequence of texts. */
  function SumSpoken(ss: seq<string>): nat {
    if ss == [] then 0 else SumSpoken(ss[..|ss| - 1]) + SpokenCount(ss[|ss| - 1])
  }

  /** The word counts of all text events of `es`, whatever their context. */
  function TextWords(es: seq<Event>): nat {
    if es == [] then 0
    else TextWords(es[..|es| - 1]) + (if es[|es| - 1].Text? then WordCount(es[|es| - 1].content) else 0)
  }

  /** The position just after the last block-quote end of `es`, or 0. */
  function LastQuoteEnd(es: seq<Event>): (r: nat)
    ensures r <= |es|
    ensures r > 0 ==> es[r - 1] == EndBlockQuote
    ensures forall j :: r <= j < |es| ==> es[j] != EndBlockQuote
  {
    if es == [] then 0
    else if es[|es| - 1] == EndBlockQuote then |es|
    else LastQuoteEnd(es[..|es| - 1])
  }

  /** The text a block quote ending after `es` would parse: the texts seen
      inside a block quote since the last block-quote end. */
  ghost function PendingQuote(es: seq<Event>): string {
    Concat(TextsIn(es, BlockQuote, LastQuoteEnd(es)))
  }

  /** For every block-quote end in `es`, the parsed duration of the texts of
      its quote, or nothing when they do not parse. */
  ghost function QuotedSeconds(es: seq<Event>, parse: string -> Option<nat>): nat {
    if es == [] then 0
    else
      var p := es[..|es| - 1];
      QuotedSeconds(p, parse) + (if es[|es| - 1] == EndBlockQuote then QuoteSeconds(parse(PendingQuote(p))) else 0)
  }

  /** Events the interpreter acts on: not `Other`, and headings only of
      level 1. */
  predicate HasEffect(e: Event) {
    match e
    case Other => false
    case StartHeading(level) => level == H1
    case EndHeading(level) => level == H1
    case _ => true
  }

  /** The events of `es` that have an effect, in order. */
  function Handled(es: seq<Event>): (r: seq<Event>)
    ensures |r| <= |es|
    ensures forall k :: 0 <= k < |r| ==> HasEffect(r[k])
  {
    if es == [] then []
    else
      var e := es[|es| - 1];
      Handled(es[..|es| - 1]) + (if HasEffect(e) then [e] else [])
  }

  /*** The interpreter loop ***/

  /** `build_script` once the document has been read and parsed into
      `events`: the loop keeps the locals of the source and yields the
      record the fold `Interp` describes. */
  method BuildScript(text: string, events: seq<Event>, parse: string -> Option<nat>)
    returns (script: Script)
    ensures script == ToScript(Interp(events, parse), text)
    ensures script.text == text
    ensures script.wordCount == TextWords(events)
    ensures script.dialogueWordCount <= script.wordCount
    ensures script.title == Concat(TextsIn(events, Heading1, 0))
    ensures script.dialogueWordCount == SumSpoken(TextsIn(events, CodeBlock, 0))
    ensures script.blockedSeconds == QuotedSeconds(events, parse)
  {
    var title := "";
    var wordCount: nat := 0;
    var blockedSeconds: nat := 0;
    var isInBlockQuote := false;
    var blockQuoteText := "";
    var isInH1 := false;
    var isInCodeBlock := false;
    var dialogueWordCount: nat := 0;
    for i := 0 to |events|
      invariant Interp(events[..i], parse)
        == Scan(title, wordCount, blockedSeconds, isInBlockQuote, blockQuoteText,
                isInH1, isInCodeBlock, dialogueWordCount)
    {
      assert events[..i + 1][..i] == events[..i];
      match events[i]
      case StartBlockQuote =>
        isInBlockQuote := true;
      case StartHeading(level) =>
        if level == H1 {
          isInH1 := true;
        }
      case StartCodeBlock =>
        isInCodeBlock := true;
      case EndBlockQuote =>
        match parse(blockQuoteText) {
          case Some(secs) =>
            blockedSeconds := blockedSeconds + secs;
          case None =>
        }
        blockQuoteText := "";
        isInBlockQuote := false;
      case EndHeading(level) =>
        if level == H1 {
          isInH1 := false;
        }
      case EndCodeBlock =>
        isInCodeBlock := false;
      case Text(s) =>
        wordCount := wordCount + WordCount(s);
        if isInBlockQuote {
          blockQuoteText := blockQuoteText + s;
        }
        if isInH1 {
          title := title + s;
        }
        if isInCodeBlock {
          dialogueWordCount := dialogueWordCount + SpokenCount(s);
        }
      case Other =>
    }
    assert events[..|events|] == events;
    script := Script(title, text, wordCount, dialogueWordCount, blockedSeconds);
    WordCountIsTextWords(events, parse);
    DialogueAtMostWordCount(events, parse);
    TitleIsHeadingText(events, parse);
    DialogueIsCodeText(events, parse);
    BlockedIsQuotedSeconds(events, parse);
  }

  /*** Properties of the fold ***/

  /** Each context flag is set exactly when the last event that opened or
      closed that context opened it. */
  lemma {:induction false} FlagIsLastWriter(es: seq<Event>, parse: string -> Option<nat>, c: Context)
    ensures InContext(Interp(es, parse), c) <==> OpenAfter(es, c)
    decreases |es|
  {
    if es != [] {
      FlagIsLastWriter(es[..|es| - 1], parse, c);
      OpenAfterSnoc(es, c);
    }
  }

  /** How one more event changes whether a context is open. */
  lemma OpenAfterSnoc(es: seq<Event>, c: Context)
    requires es != []
    ensures var n := |es| - 1;
            OpenAfter(es, c) <==> Opens(es[n], c) || (!Closes(es[n], c) && OpenAfter(es[..n], c))
  {
    var n := |es| - 1;
    var p := es[..n];
    if Opens(es[n], c) {
    } else if Closes(es[n], c) {
      // Every earlier opener is followed by this closing event.
      forall i | 0 <= i < |es| && Opens(es[i], c)
        ensures !(forall j :: i < j < |es| ==> !Closes(es[j], c))
      {
        assert i < n && Closes(es[n], c);
      }
    } else {
      if OpenAfter(p, c) {
        var i :| 0 <= i < |p| && Opens(p[i], c) && forall j :: i < j < |p| ==> !Closes(p[j], c);
        assert es[i] == p[i];
        forall j | i < j < |es| ensures !Closes(es[j], c) {
          if j < n { assert es[j] == p[j]; }
        }
      }
      if OpenAfter(es, c) {
        var i :| 0 <= i < |es| && Opens(es[i], c) && forall j :: i < j < |es| ==> !Closes(es[j], c);
        assert i < n;
        assert p[i] == es[i];
        forall j | i < j < |p| ensures !Closes(p[j], c) {
          assert p[j] == es[j];
        }
      }
    }
  }

  /** The word count takes every text event, whatever flags are set. */
  lemma {:induction false} WordCountIsTextWords(es: seq<Event>, parse: string -> Option<nat>)
    ensures Interp(es, parse).wordCount == TextWords(es)
    decreases |es|
  {
    if es != [] {
      WordCountIsTextWords(es[..|es| - 1], parse);
      StepCounts(Interp(es[..|es| - 1], parse), es[|es| - 1], parse);
    }
  }

  /** Dialogue words are some of the words: never more than the word count. */
  lemma {:induction false} DialogueAtMostWordCount(es: seq<Event>, parse: string -> Option<nat>)
    ensures Interp(es, parse).dialogueWordCount <= Interp(es, parse).wordCount
    decreases |es|
  {
    if es != [] {
      DialogueAtMostWordCount(es[..|es| - 1], parse);
      StepCounts(Interp(es[..|es| - 1], parse), es[|es| - 1], parse);
      StepDialogue(Interp(es[..|es| - 1], parse), es[|es| - 1], parse);
    }
  }

  /** The title is the texts seen inside a level-1 heading, concatenated in
      order with no separator. */
  lemma {:induction false} TitleIsHeadingText(es: seq<Event>, parse: string -> Option<nat>)
    ensures Interp(es, parse).title == Concat(TextsIn(es, Heading1, 0))
    decreases |es|
  {
    if es != [] {
      var p := es[..|es| - 1];
      TitleIsHeadingText(p, parse);
      FlagIsLastWriter(p, parse, Heading1);
      var e := es[|es| - 1];
      var prior := TextsIn(p, Heading1, 0);
      StepTitle(Interp(p, parse), e, parse);
      if e.Text? && OpenAfter(p, Heading1) {
        assert TextsIn(es, Heading1, 0) == prior + [e.content];
        ConcatSnoc(prior, e);
      } else {
        assert TextsIn(es, Heading1, 0) == prior;
      }
    }
  }

  /** The dialogue word count is the dialogue words of the texts seen inside
      a code block. */
  lemma {:induction false} DialogueIsCodeText(es: seq<Event>, parse: string -> Option<nat>)
    ensures Interp(es, parse).dialogueWordCount == SumSpoken(TextsIn(es, CodeBlock, 0))
    decreases |es|
  {
    if es != [] {
      var p := es[..|es| - 1];
      DialogueIsCodeText(p, parse);
      FlagIsLastWriter(p, parse, CodeBlock);
      var e := es[|es| - 1];
      var prior := TextsIn(p, CodeBlock, 0);
      StepDialogue(Interp(p, parse), e, parse);
      if e.Text? && OpenAfter(p, CodeBlock) {
        assert TextsIn(es, CodeBlock, 0) == prior + [e.content];
        SumSpokenSnoc(prior, e);
      } else {
        assert TextsIn(es, CodeBlock, 0) == prior;
      }
    }
  }

  /** The block-quote buffer holds the texts seen inside a block quote since
      the last block-quote end. */
  lemma {:induction false} QuoteBufferIsPending(es: seq<Event>, parse: string -> Option<nat>)
    ensures Interp(es, parse).blockQuoteText == PendingQuote(es)
    decreases |es|
  {
    if es != [] && es[|es| - 1] != EndBlockQuote {
      var p := es[..|es| - 1];
      QuoteBufferIsPending(p, parse);
      FlagIsLastWriter(p, parse, BlockQuote);
      var lo := LastQuoteEnd(p);
      assert LastQuoteEnd(es) == lo;
      var e := es[|es| - 1];
      var prior := TextsIn(p, BlockQuote, lo);
      if e.Text? && OpenAfter(p, BlockQuote) {
        assert TextsIn(es, BlockQuote, lo) == prior + [e.content];
        ConcatSnoc(prior, e);
      } else {
        assert TextsIn(es, BlockQuote, lo) == prior;
      }
    }
  }

  /** The blocked seconds are the parsed durations of the block quotes,
      added when each quote ends; quotes that do not parse add nothing. */
  lemma {:induction false} BlockedIsQuotedSeconds(es: seq<Event>, parse: string -> Option<nat>)
    ensures Interp(es, parse).blockedSeconds == QuotedSeconds(es, parse)
    decreases |es|
  {
    if es != [] {
      var p := es[..|es| - 1];
      BlockedIsQuotedSeconds(p, parse);
      QuoteBufferIsPending(p, parse);
    }
  }

  /** Without a code block there is no dialogue. */
  lemma {:induction false} NoCodeBlockNoDialogue(es: seq<Event>, parse: string -> Option<nat>)
    requires forall i :: 0 <= i < |es| ==> es[i] != StartCodeBlock
    ensures !Interp(es, parse).inCodeBlock
    ensures Interp(es, parse).dialogueWordCount == 0
    decreases |es|
  {
    if es != [] {
      NoCodeBlockNoDialogue(es[..|es| - 1], parse);
    }
  }

  /** Without a level-1 heading the title is empty. */
  lemma {:induction false} NoHeadingNoTitle(es: seq<Event>, parse: string -> Option<nat>)
    requires forall i :: 0 <= i < |es| ==> es[i] != StartHeading(H1)
    ensures !Interp(es, parse).inH1
    ensures Interp(es, parse).title == ""
    decreases |es|
  {
    if es != [] {
      NoHeadingNoTitle(es[..|es| - 1], parse);
    }
  }

  /** Without a block-quote end nothing is blocked. */
  lemma {:induction false} NoQuoteEndNoBlocked(es: seq<Event>, parse: string -> Option<nat>)
    requires forall i :: 0 <= i < |es| ==> es[i] != EndBlockQuote
    ensures Interp(es, parse).blockedSeconds == 0
    decreases |es|
  {
    if es != [] {
      NoQuoteEndNoBlocked(es[..|es| - 1], parse);
    }
  }

  /** A block-quote end adds the parsed duration of the buffer, or nothing
      when it does not parse, then empties the buffer and clears the flag
      whatever its nesting; it changes nothing else. */
  lemma QuoteEndEffect(es: seq<Event>, parse: string -> Option<nat>)
    ensures var before := Interp(es, parse);
            var after := Interp(es + [EndBlockQuote], parse);
            && (parse(before.blockQuoteText).Some? ==>
                  after.blockedSeconds == before.blockedSeconds + parse(before.blockQuoteText).value)
            && (parse(before.blockQuoteText).None? ==> after.blockedSeconds == before.blockedSeconds)
            && after.blockQuoteText == ""
            && !after.inBlockQuote
            && after == before.(blockedSeconds := after.blockedSeconds, blockQuoteText := "", inBlockQuote := false)
  {
    assert (es + [EndBlockQuote])[..|es|] == es;
  }

  /** The blocked seconds change only at a block-quote end. */
  lemma {:induction false} BlockedChangesOnlyAtQuoteEnd(es: seq<Event>, parse: string -> Option<nat>, k: nat)
    requires k < |es|
    requires Interp(es[..k + 1], parse).blockedSeconds != Interp(es[..k], parse).blockedSeconds
    ensures es[k] == EndBlockQuote
  {
    assert es[..k + 1][..k] == es[..k];
  }

  /** The blocked seconds never decrease along the events. */
  lemma {:induction false} BlockedMonotone(es: seq<Event>, parse: string -> Option<nat>, j: nat, k: nat)
    requires j <= k <= |es|
    ensures Interp(es[..j], parse).blockedSeconds <= Interp(es[..k], parse).blockedSeconds
    decreases k - j
  {
    if j < k {
      BlockedMonotone(es, parse, j, k - 1);
      assert es[..k][..k - 1] == es[..k - 1];
    }
  }

  /** A text event updates every open context at once: the checks are
      independent, not exclusive. */
  lemma TextFeedsEveryOpenContext(es: seq<Event>, parse: string -> Option<nat>, s: string)
    requires Interp(es, parse).inBlockQuote && Interp(es, parse).inH1 && Interp(es, parse).inCodeBlock
    ensures var before := Interp(es, parse);
            var after := Interp(es + [Text(s)], parse);
            && after.blockQuoteText == before.blockQuoteText + s
            && after.title == before.title + s
            && after.dialogueWordCount == before.dialogueWordCount + SpokenCount(s)
            && after.wordCount == before.wordCount + WordCount(s)
  {
    assert (es + [Text(s)])[..|es|] == es;
  }

  /** Headings of other levels and all unhandled events are no-ops: the
      interpreter ends in the same state without them. */
  lemma {:induction false} IgnoredEventsAreNoOps(es: seq<Event>, parse: string -> Option<nat>)
    ensures Interp(Handled(es), parse) == Interp(es, parse)
    decreases |es|
  {
    if es != [] {
      var p := es[..|es| - 1];
      var e := es[|es| - 1];
      IgnoredEventsAreNoOps(p, parse);
      var h := Handled(p);
      if HasEffect(e) {
        assert Handled(es) == h + [e];
        assert (h + [e])[..|h|] == h;
      } else {
        assert Handled(es) == h;
      }
    }
  }

  /*** Sequence helpers ***/

  lemma ConcatSnoc(ss: seq<string>, e: Event)
    ensures e.Text? ==> Concat(ss + [e.content]) == Concat(ss) + e.content
  {
    if e.Text? {
      assert (ss + [e.content])[..|ss|] == ss;
    }
  }

  /** How one event changes the word count. */
  lemma StepCounts(st: Scan, e: Event, parse: string -> Option<nat>)
    ensures Step(st, e, parse).wordCount
      == st.wordCount + (if e.Text? then WordCount(e.content) else 0)
  {
  }

  /** How one event changes the title. */
  lemma StepTitle(st: Scan, e: Event, parse: string -> Option<nat>)
    ensures Step(st, e, parse).title
      == if e.Text? && st.inH1 then st.title + e.content else st.title
  {
  }

  /** How one event changes the dialogue word count. */
  lemma StepDialogue(st: Scan, e: Event, parse: string -> Option<nat>)
    ensures Step(st, e, parse).dialogueWordCount
      == st.dialogueWordCount + (if e.Text? && st.inCodeBlock then SpokenCount(e.content) else 0)
  {
  }

  lemma SumSpokenSnoc(ss: seq<string>, e: Event)
    ensures e.Text? ==> SumSpoken(ss + [e.content]) == SumSpoken(ss) + SpokenCount(e.content)
  {
    if e.Text? {
      assert (ss + [e.content])[..|ss|] == ss;
    }
  }
}
