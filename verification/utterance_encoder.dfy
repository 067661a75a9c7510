/**
 The utterance encoder of the dialogue-state-tracking pipeline. Each call adds
 one dialogue turn (the system utterance, then the user utterance) to the
 caller's history list, flattens the whole history into one lower-case
 context string, and looks up the id of every whitespace-delimited token of
 that string in the vocabulary.
 */
module UtteranceEncoding {
  import opened PyStr

  /** One history item, the two-element list `[speaker, text]`. */
  datatype Entry = Entry(speaker: string, text: string)

  const SysTag: string := "sys"
  const UserTag: string := "user"
  /** Placed between the texts of neighbouring entries. */
  const Separator: string := " ; "
  /** Appended after the stripped, joined texts. */
  const Terminator: string := " ;"

  /** `item[1].strip().lower()`. */
  function Normalize(text: string): string
  {
    Lower(Strip(text))
  }

  /** The list comprehension `[item[1].strip().lower() for item in dial_history]`. */
  function NormalizedTexts(history: seq<Entry>): (parts: seq<string>)
    ensures |parts| == |history|
    ensures forall k :: 0 <= k < |parts| ==> NoUpper(parts[k])
  {
    if history == [] then []
    else [Normalize(history[0].text)] + NormalizedTexts(history[1..])
  }

  /** The context string: the normalized texts joined by `" ; "`, stripped,
      followed by `" ;"`. */
  function Context(history: seq<Entry>): string {
    Strip(Join(Separator, NormalizedTexts(history))) + Terminator
  }

  /** Reference definition of the context's tokens: every entry contributes
      the lower-cased words of its text followed by the token `";"`. */
  function TurnTokens(history: seq<Entry>): (tokens: seq<string>)
    ensures |tokens| >= |history|
  {
    if history == [] then []
    else LowerAll(Split(history[0].text)) + [";"] + TurnTokens(history[1..])
  }

  /** `vocab.tokens2ids(tokens)`: the vocabulary applied to every token, in
      order and keeping duplicates. */
  function TokensToIds(vocab: string -> int, tokens: seq<string>): (ids: seq<int>)
    ensures |ids| == |tokens|
    ensures forall k :: 0 <= k < |tokens| ==> ids[k] == vocab(tokens[k])
  {
    if tokens == [] then [] else [vocab(tokens[0])] + TokensToIds(vocab, tokens[1..])
  }

  /** The history after one call: the old entries, then the system entry,
      then the user entry. */
  function AddTurn(history: seq<Entry>, userUttr: string, sysUttr: string): (r: seq<Entry>)
    ensures |r| == |history| + 2
    ensures r[..|history|] == history
    ensures r[|history|] == Entry(SysTag, sysUttr)
    ensures r[|history| + 1] == Entry(UserTag, userUttr)
  {
    history + [Entry(SysTag, sysUttr), Entry(UserTag, userUttr)]
  }

  /** The tokens of the words of one utterance, lower-cased, then `";"`. */
  function UtteranceTokens(uttr: string): seq<string> {
    LowerAll(Split(uttr)) + [";"]
  }

  /** A history built only by calls to the encoder: speakers alternate,
      starting with the system. */
  predicate Alternating(history: seq<Entry>) {
    forall k :: 0 <= k < |history| ==>
      history[k].speaker == (if k % 2 == 0 then SysTag else UserTag)
  }

  /** The history after a sequence of calls, each turn given as
      `(user utterance, system utterance)`. */
  function Replay(history: seq<Entry>, turns: seq<(string, string)>): seq<Entry>
    decreases |turns|
  {
    if turns == [] then history
    else Replay(AddTurn(history, turns[0].0, turns[0].1), turns[1..])
  }

  /** A normalized text has no upper-case letter, neither starts nor ends
      with whitespace, and is empty exactly when the text is all whitespace. */
  lemma {:induction false} NormalizeShape(text: string)
    ensures NoUpper(Normalize(text))
    ensures var r := Normalize(text);
      r == [] || (!IsWhitespace(r[0]) && !IsWhitespace(r[|r| - 1]))
    ensures Normalize(text) == [] <==> AllWhitespace(text)
  {
    var s := Strip(text);
    assert |Lower(s)| == |s|;
  }

  /** The normalized text of an entry splits into its lower-cased words. */
  lemma {:induction false} NormalizeTokens(text: string)
    ensures Split(Normalize(text)) == LowerAll(Split(text))
  {
    SplitLower(Strip(text));
    SplitIgnoresStrip(text);
  }

  /** Splitting the joined texts and adding the final `";"` gives the
      reference tokens. */
  lemma {:induction false} JoinedTextsTokens(history: seq<Entry>)
    requires history != []
    ensures Split(Join(Separator, NormalizedTexts(history))) + [";"] == TurnTokens(history)
  {
    var parts := NormalizedTexts(history);
    var words := LowerAll(Split(history[0].text));
    NormalizeTokens(history[0].text);
    assert parts[0] == Normalize(history[0].text);
    assert TurnTokens(history) == words + [";"] + TurnTokens(history[1..]);
    if |history| == 1 {
      assert history[1..] == [];
      assert Join(Separator, parts) == parts[0];
    } else {
      assert parts[1..] == NormalizedTexts(history[1..]);
      var rest := Join(Separator, parts[1..]);
      var joined := Join(Separator, parts);
      assert joined == parts[0] + " ; " + rest;
      SplitAroundSemicolon(parts[0], rest);
      var tail := Split(rest);
      assert Split(joined) == words + [";"] + tail;
      JoinedTextsTokens(history[1..]);
      assert tail + [";"] == TurnTokens(history[1..]);
      assert Split(joined) + [";"] == words + [";"] + (tail + [";"]);
    }
  }

  /** The context of a non-empty history splits into the reference tokens:
      for every entry, in order, its lower-cased words and then `";"`. */
  lemma {:induction false} ContextTokens(history: seq<Entry>)
    requires history != []
    ensures Split(Context(history)) == TurnTokens(history)
  {
    var joined := Join(Separator, NormalizedTexts(history));
    ContextSplitsAtTerminator(history);
    SplitIgnoresStrip(joined);
    JoinedTextsTokens(history);
  }

  /** The context ends with `" ;"`; splitting it gives the split of the
      stripped join followed by the token `";"`. */
  lemma {:induction false} ContextSplitsAtTerminator(history: seq<Entry>)
    ensures |Context(history)| >= 2
    ensures Context(history)[|Context(history)| - 2..] == Terminator
    ensures Split(Context(history))
         == Split(Strip(Join(Separator, NormalizedTexts(history)))) + [";"]
  {
    var body := Strip(Join(Separator, NormalizedTexts(history)));
    assert Context(history) == body + " ;";
    SplitBeforeSemicolon(body);
  }

  /** There is always at least one token, and the last one is `";"`. */
  lemma {:induction false} TokensEndWithSemicolon(history: seq<Entry>)
    ensures Split(Context(history)) != []
    ensures Split(Context(history))[|Split(Context(history))| - 1] == ";"
  {
    ContextSplitsAtTerminator(history);
  }

  /** The context holds no upper-case letter. */
  lemma {:induction false} ContextNoUpper(history: seq<Entry>)
    ensures NoUpper(Context(history))
  {
    var parts := NormalizedTexts(history);
    var joined := Join(Separator, parts);
    var body := Strip(joined);
    assert NoUpper(body) by {
      JoinNoUpper(Separator, parts);
      StripNoUpper(joined);
    }
    ConcatNoUpper(body, Terminator);
    assert Context(history) == body + Terminator;
  }

  /** With two or more entries the join holds a `";"`, so stripping leaves a
      non-empty string and the context does not start with whitespace. */
  lemma {:induction false} ContextStartsWithText(history: seq<Entry>)
    requires |history| >= 2
    ensures !IsWhitespace(Context(history)[0])
  {
    var parts := NormalizedTexts(history);
    var joined := Join(Separator, parts);
    var rest := Join(Separator, parts[1..]);
    assert joined == parts[0] + Separator + rest;
    assert joined[|parts[0]| + 1] == ';';
    assert !AllWhitespace(joined);
    assert Strip(joined) != [];
  }

  /** Token lists of two histories concatenate. */
  lemma {:induction false} TurnTokensAppend(a: seq<Entry>, b: seq<Entry>)
    ensures TurnTokens(a + b) == TurnTokens(a) + TurnTokens(b)
  {
    if a == [] {
      assert a + b == b;
    } else {
      assert (a + b)[1..] == a[1..] + b;
      TurnTokensAppend(a[1..], b);
    }
  }

  /** One call extends the previous context's tokens (none for an empty
      history) by the system utterance's tokens and then the user
      utterance's tokens. */
  lemma {:induction false} TokensAfterTurn(history: seq<Entry>, userUttr: string, sysUttr: string)
    ensures Split(Context(AddTurn(history, userUttr, sysUttr)))
         == (if history == [] then [] else Split(Context(history)))
            + (UtteranceTokens(sysUttr) + UtteranceTokens(userUttr))
  {
    var sysEntry, userEntry := Entry(SysTag, sysUttr), Entry(UserTag, userUttr);
    var turn := [sysEntry, userEntry];
    var after := AddTurn(history, userUttr, sysUttr);
    assert after == history + turn;
    ContextTokens(after);
    TurnTokensAppend(history, turn);
    assert turn[1..] == [userEntry];
    assert [userEntry][1..] == [];
    assert TurnTokens([userEntry]) == UtteranceTokens(userUttr);
    assert TurnTokens(turn) == UtteranceTokens(sysUttr) + UtteranceTokens(userUttr);
    var before := if history == [] then [] else Split(Context(history));
    assert TurnTokens(history) == before by {
      if history != [] {
        ContextTokens(history);
      }
    }
    assert Split(Context(after)) == before + (UtteranceTokens(sysUttr) + UtteranceTokens(userUttr));
  }

  /** Ids of two token lists concatenate, so the ids keep the tokens' order. */
  lemma {:induction false} TokensToIdsAppend(vocab: string -> int, a: seq<string>, b: seq<string>)
    ensures TokensToIds(vocab, a + b) == TokensToIds(vocab, a) + TokensToIds(vocab, b)
  {
    if a != [] {
      assert (a + b)[1..] == a[1..] + b;
      TokensToIdsAppend(vocab, a[1..], b);
    } else {
      assert a + b == b;
    }
  }

  /** Adding a turn keeps the speakers alternating. */
  lemma {:induction false} AddTurnKeepsAlternating(history: seq<Entry>, userUttr: string, sysUttr: string)
    requires Alternating(history) && |history| % 2 == 0
    ensures Alternating(AddTurn(history, userUttr, sysUttr))
  {
    var r := AddTurn(history, userUttr, sysUttr);
    forall k | 0 <= k < |r|
      ensures r[k].speaker == (if k % 2 == 0 then SysTag else UserTag)
    {
      if k < |history| {
        assert r[k] == r[..|history|][k];
      }
    }
  }

  /** After `n` calls the history has grown by `2 n` entries, the old entries
      are unchanged, and a history that started empty alternates between
      the system and the user. */
  lemma {:induction false} ReplayGrowth(history: seq<Entry>, turns: seq<(string, string)>)
    ensures |Replay(history, turns)| == |history| + 2 * |turns|
    ensures Replay(history, turns)[..|history|] == history
    ensures Alternating(history) && |history| % 2 == 0 ==> Alternating(Replay(history, turns))
    decreases |turns|
  {
    if turns != [] {
      var next := AddTurn(history, turns[0].0, turns[0].1);
      ReplayGrowth(next, turns[1..]);
      assert Replay(history, turns)[..|history|] == Replay(next, turns[1..])[..|next|][..|history|];
      if Alternating(history) && |history| % 2 == 0 {
        AddTurnKeepsAlternating(history, turns[0].0, turns[0].1);
      }
    }
  }

  /** Normalizing is idempotent: a normalized text is its own normal form. */
  lemma {:induction false} NormalizeIdempotent(text: string)
    ensures Normalize(Normalize(text)) == Normalize(text)
  {
    var r := Normalize(text);
    NormalizeShape(text);
    if r != [] {
      assert LeadingSpace(r) == 0;
      assert TrailingSpace(r) == 0;
      assert r[0..|r|] == r;
    }
    assert Strip(r) == r;
    assert Lower(r) == r;
  }

  /** An empty history with "Hello" from the system and "Hi there" from the
      user gives the context "hello ; hi there ;". */
  lemma ExampleFirstTurnContext()
    ensures Context(AddTurn([], "Hi there", "Hello")) == "hello ; hi there ;"
  {
    ExampleNormalizedTexts();
    assert Strip("hello ; hi there") == "hello ; hi there" by {
      assert LeadingSpace("hello ; hi there") == 0;
    }
  }

  /** The texts of that history normalize to "hello" and "hi there". */
  lemma ExampleNormalizedTexts()
    ensures Join(Separator, NormalizedTexts(AddTurn([], "Hi there", "Hello"))) == "hello ; hi there"
  {
    var history := AddTurn([], "Hi there", "Hello");
    ExampleNormalizeHello();
    ExampleNormalizeHiThere();
    assert NormalizedTexts(history) == ["hello", "hi there"];
  }

  /** `"Hello".strip().lower()`. */
  lemma ExampleNormalizeHello()
    ensures Normalize("Hello") == "hello"
  {
    assert LeadingSpace("Hello") == 0;
  }

  /** `"Hi there".strip().lower()`. */
  lemma ExampleNormalizeHiThere()
    ensures Normalize("Hi there") == "hi there"
  {
    assert LeadingSpace("Hi there") == 0;
  }

  /** Two empty utterances on an empty history give the context "; ;" and
      the two tokens ";" and ";". */
  lemma ExampleEmptyUtterances()
    ensures Context(AddTurn([], "", "")) == "; ;"
    ensures Split(Context(AddTurn([], "", ""))) == [";", ";"]
  {
    var history := AddTurn([], "", "");
    assert NormalizedTexts(history) == ["", ""];
    assert Join(Separator, ["", ""]) == " ; ";
    assert Strip(" ; ") == ";" by {
      assert LeadingSpace(" ; ") == 1;
    }
    assert Context(history) == "; ;";
    assert "; ;" == ";" + [' '] + ";";
    SplitAtWhitespace(";", ' ', ";");
    SplitSingleWord(";");
  }

  /** A Python list of history items, passed by reference and appended to in
      place. */
  class DialogueHistory {
    var entries: seq<Entry>

    constructor (initial: seq<Entry>)
      ensures entries == initial
    {
      entries := initial;
    }

    /** `list.append(e)`. */
    method Append(e: Entry)
      modifies this
      ensures entries == old(entries) + [e]
    {
      entries := entries + [e];
    }
  }

  /** The encoder node; it keeps the vocabulary's token-to-id lookup. */
  class UtteranceEncoder {
    const vocab: string -> int

    constructor (vocab: string -> int)
      ensures this.vocab == vocab
    {
      this.vocab := vocab;
    }

    /** Appends the turn to `dialHistory`, then returns the ids of the
        context's tokens, their number, and the same history object. */
    method Forward(dialHistory: DialogueHistory, userUttr: string, sysUttr: string)
      returns (srcIds: seq<int>, srcLens: nat, updated: DialogueHistory)
      modifies dialHistory
      ensures updated == dialHistory
      ensures dialHistory.entries == AddTurn(old(dialHistory.entries), userUttr, sysUttr)
      ensures srcIds == TokensToIds(vocab, Split(Context(dialHistory.entries)))
      ensures srcLens == |srcIds| == |Split(Context(dialHistory.entries))|
      ensures srcIds == TokensToIds(vocab, TurnTokens(dialHistory.entries))
      ensures srcLens >= |dialHistory.entries| && srcIds[srcLens - 1] == vocab(";")
      ensures srcIds
           == (if old(dialHistory.entries) == [] then []
               else TokensToIds(vocab, Split(Context(old(dialHistory.entries)))))
              + TokensToIds(vocab, UtteranceTokens(sysUttr) + UtteranceTokens(userUttr))
    {
      ghost var before := dialHistory.entries;
      dialHistory.Append(Entry(SysTag, sysUttr));
      dialHistory.Append(Entry(UserTag, userUttr));
      assert dialHistory.entries == AddTurn(before, userUttr, sysUttr);

      var context := Context(dialHistory.entries);
      srcIds := TokensToIds(vocab, Split(context));
      srcLens := |srcIds|;
      updated := dialHistory;

      ContextTokens(dialHistory.entries);
      TokensEndWithSemicolon(dialHistory.entries);
      TokensAfterTurn(before, userUttr, sysUttr);
      TokensToIdsAppend(vocab,
        if before == [] then [] else Split(Context(before)),
        UtteranceTokens(sysUttr) + UtteranceTokens(userUttr));
    }
  }
}
