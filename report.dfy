/** The runtime estimates that the summary (`Display`) and the generated
    README print for a script: the blocked seconds of the stage directions
    plus the time the dialogue takes to speak. */
module Report {
  import opened Wrappers
  import opened Tokens
  import opened Interpreter
  import opened Duration

  /** The estimated dialogue time: the dialogue words at 2.5 seconds each. */
  function DialogueSeconds(script: Script): nat
    requires 5 * script.dialogueWordCount < ExactLimit
  {
    WordCountToSeconds(script.dialogueWordCount)
  }

  /** The estimated runtime: blocked seconds plus dialogue time. */
  function RuntimeSeconds(script: Script): nat
    requires 5 * script.dialogueWordCount < ExactLimit
  {
    script.blockedSeconds + DialogueSeconds(script)
  }

  /** The runtime is the dialogue time plus exactly the blocked seconds;
      it equals the blocked seconds exactly when there is no dialogue. */
  lemma RuntimeParts(script: Script)
    requires 5 * script.dialogueWordCount < ExactLimit
    ensures DialogueSeconds(script) <= RuntimeSeconds(script)
    ensures RuntimeSeconds(script) - DialogueSeconds(script) == script.blockedSeconds
    ensures RuntimeSeconds(script) == script.blockedSeconds <==> script.dialogueWordCount == 0
    ensures 2 * script.blockedSeconds + 5 * script.dialogueWordCount <= 2 * RuntimeSeconds(script)
  {
  }

  /** The runtime line of the summary and of the README, read back, is the
      blocked seconds plus the rounded dialogue time. */
  lemma RuntimeLineReadsBack(script: Script)
    requires 5 * script.dialogueWordCount < ExactLimit
    ensures ReadShorthand(Shorthand(RuntimeSeconds(script)))
      == Some(script.blockedSeconds + (5 * script.dialogueWordCount + 1) / 2)
  {
    var runtime := RuntimeSeconds(script);
    ShorthandRoundTrip(runtime);
    WordCountToSecondsClosedForm(script.dialogueWordCount);
    assert runtime == script.blockedSeconds + (5 * script.dialogueWordCount + 1) / 2;
  }

  /** For a script built from `events`, the runtime is the parsed durations
      of its block quotes plus the time of the dialogue words of its code
      blocks; a script without code blocks runs for its blocked seconds. */
  lemma RuntimeOfEvents(text: string, events: seq<Event>, parse: string -> Option<nat>)
    requires 5 * TextWords(events) < ExactLimit
    ensures var script := ToScript(Interp(events, parse), text);
            && 5 * script.dialogueWordCount < ExactLimit
            && script.dialogueWordCount == SumSpoken(TextsIn(events, CodeBlock, 0))
            && RuntimeSeconds(script)
               == QuotedSeconds(events, parse) + WordCountToSeconds(SumSpoken(TextsIn(events, CodeBlock, 0)))
            && ((forall i :: 0 <= i < |events| ==> events[i] != StartCodeBlock) ==>
                  RuntimeSeconds(script) == QuotedSeconds(events, parse))
  {
    WordCountIsTextWords(events, parse);
    DialogueAtMostWordCount(events, parse);
    DialogueIsCodeText(events, parse);
    BlockedIsQuotedSeconds(events, parse);
    if forall i :: 0 <= i < |events| ==> events[i] != StartCodeBlock {
      NoCodeBlockNoDialogue(events, parse);
    }
  }
}
