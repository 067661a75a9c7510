# Utterance encoder of the dialogue-state-tracking pipeline

This project models `UtteranceEncoderNM` of NeMo's dialogue-state-tracking
collection (`nemo/collections/nlp/nm/non_trainables/dialogue_state_tracking/utterance_encoder_nm.py`). Each call of
`forward(dial_history, user_uttr, sys_uttr)`:

1. appends `["sys", sys_uttr]` and then `["user", user_uttr]` to the
   caller's history list, in place;
2. builds the context string: every entry's text is stripped and
   lower-cased, the texts are joined with `" ; "`, the result is stripped
   again and `" ;"` is appended;
3. splits the context on whitespace, looks every token up in the
   vocabulary, and returns the ids, their number and the same history list.

Two files, one module each:

- `py_str.dfy`, module `PyStr`: the Python string operations the encoder
  uses (`str.strip()` and `str.split()` without arguments, `str.lower()`,
  `sep.join(parts)`) over `string = seq<char>`. The facts the encoder's
  proofs rely on are proved about them: splitting at a whitespace character
  splits both sides apart, stripping does not change the words, and
  lower-casing commutes with splitting. Further properties of these
  operations are proved beside them without being used by the encoder:
  joining words with a single space is undone by splitting
  (`SplitJoinRoundTrip`), and stripping, like normalizing an entry's text,
  is idempotent (`StripIdempotent`, `NormalizeIdempotent`).
- `utterance_encoder.dfy`, module `UtteranceEncoding`: history entries,
  the context string, a reference definition of its tokens, the vocabulary
  lookup, the history list as a class whose `Append` changes it in place, and
  the encoder class whose `Forward` method is the modelled `forward`.

The central result is `ContextTokens`: for a non-empty history the tokens of
the context are, entry by entry in order, the lower-cased words of the entry's
text followed by the token `";"`. `Forward` states that its ids are the
vocabulary applied to exactly those tokens, that the last id is the id of
`";"`, that there are at least as many ids as history entries, and that the
ids of the previous call's context come first, followed by the ids of the new
turn.

The behaviour follows the code. For two empty utterances on an empty history
the code builds `" ; "`, strips it to `";"` and appends `" ;"`: the context
is `"; ;"`, with exactly two tokens `";"`, `";"` (`ExampleEmptyUtterances`).

## Model

| member | source | states |
|---|---|---|
| `UtteranceEncoding.UtteranceEncoder.Forward` | nemo/collections/nlp/nm/non_trainables/dialogue_state_tracking/utterance_encoder_nm.py:77-97 | appends the system entry then the user entry to the caller's list and returns that same list object; `srcIds` is the vocabulary applied to the context's tokens in order, which are the entries' lower-cased words each followed by `";"`; `srcLens` is the number of ids and of tokens, at least the number of entries; the last id is that of `";"`; the previous context's ids are a prefix, followed by the new turn's |
| `UtteranceEncoding.UtteranceEncoder.constructor` | nemo/collections/nlp/nm/non_trainables/dialogue_state_tracking/utterance_encoder_nm.py:67-75 | the encoder keeps the vocabulary it is given |
| `UtteranceEncoding.DialogueHistory.Append` | nemo/collections/nlp/nm/non_trainables/dialogue_state_tracking/utterance_encoder_nm.py:89-90 | `list.append`: the entries become the old entries followed by the new one |
| `UtteranceEncoding.AddTurn` | nemo/collections/nlp/nm/non_trainables/dialogue_state_tracking/utterance_encoder_nm.py:89-90 | the history grows by exactly two entries; the old entries keep their positions; the second-to-last entry is `("sys", sys_uttr)` and the last is `("user", user_uttr)` |
| `UtteranceEncoding.AddTurnKeepsAlternating` | nemo/collections/nlp/nm/non_trainables/dialogue_state_tracking/utterance_encoder_nm.py:89-90 | a history of even length whose speakers alternate sys, user, sys, user, ... still alternates after a call |
| `UtteranceEncoding.ReplayGrowth` | nemo/collections/nlp/nm/non_trainables/dialogue_state_tracking/utterance_encoder_nm.py:89-90 | after n calls the history has grown by 2n entries, the original entries are unchanged, and a history that started empty alternates between system and user |
| `UtteranceEncoding.Context` | nemo/collections/nlp/nm/non_trainables/dialogue_state_tracking/utterance_encoder_nm.py:93 | the context string of line 93: the `" ; "`-join of the normalized texts, stripped, followed by `" ;"`; its meaning is given by `ContextTokens` (its tokens are each entry's lower-cased words followed by `";"`), `ContextNoUpper`, `ContextStartsWithText`, `ContextSplitsAtTerminator` and `TokensEndWithSemicolon` |
| `UtteranceEncoding.Normalize` | nemo/collections/nlp/nm/non_trainables/dialogue_state_tracking/utterance_encoder_nm.py:93 | `item[1].strip().lower()`; `NormalizeShape`, `NormalizeTokens` and `NormalizeIdempotent` state its meaning |
| `PyStr.Split` | nemo/collections/nlp/nm/non_trainables/dialogue_state_tracking/utterance_encoder_nm.py:94 | `str.split()` without arguments: maximal runs of non-whitespace characters in order; `SplitWords`, `SplitAtWhitespace`, `SplitSkipsLeadingWhitespace`, `SplitSkipsTrailingWhitespace`, `SplitSingleWord` and `SplitJoinRoundTrip` state its meaning |
| `PyStr.Join` | nemo/collections/nlp/nm/non_trainables/dialogue_state_tracking/utterance_encoder_nm.py:93 | `sep.join(parts)`: the parts in order with the separator between neighbours; `JoinedTextsTokens`, `JoinNoUpper` and `SplitJoinRoundTrip` state what the encoder uses of it |
| `PyStr.IsWhitespace` | nemo/collections/nlp/nm/non_trainables/dialogue_state_tracking/utterance_encoder_nm.py:93-94 | the characters for which `str.isspace()` holds, which `strip()` removes and `split()` splits at; `SplitWords`, `Strip` and `StripDecomposition` use it |
| `UtteranceEncoding.NormalizedTexts` | nemo/collections/nlp/nm/non_trainables/dialogue_state_tracking/utterance_encoder_nm.py:93 | the comprehension yields one normalized text per entry, none holding an upper-case letter |
| `UtteranceEncoding.NormalizeShape` | nemo/collections/nlp/nm/non_trainables/dialogue_state_tracking/utterance_encoder_nm.py:93 | `text.strip().lower()` has no upper-case letter, neither starts nor ends with whitespace, and is empty exactly when the text is all whitespace |
| `UtteranceEncoding.NormalizeIdempotent` | nemo/collections/nlp/nm/non_trainables/dialogue_state_tracking/utterance_encoder_nm.py:93 | normalizing a normalized text changes nothing |
| `UtteranceEncoding.NormalizeTokens` | nemo/collections/nlp/nm/non_trainables/dialogue_state_tracking/utterance_encoder_nm.py:93-94 | the words of a normalized text are the text's words, lower-cased |
| `UtteranceEncoding.JoinedTextsTokens` | nemo/collections/nlp/nm/non_trainables/dialogue_state_tracking/utterance_encoder_nm.py:93-94 | splitting the `" ; "`-join of the normalized texts and adding `";"` gives every entry's lower-cased words followed by `";"` |
| `UtteranceEncoding.ContextTokens` | nemo/collections/nlp/nm/non_trainables/dialogue_state_tracking/utterance_encoder_nm.py:93-94 | for a non-empty history the context's tokens are, per entry in order, its lower-cased words followed by `";"` |
| `UtteranceEncoding.ContextSplitsAtTerminator` | nemo/collections/nlp/nm/non_trainables/dialogue_state_tracking/utterance_encoder_nm.py:93-94 | the context ends with `" ;"`, and its tokens are those of the stripped join followed by `";"` |
| `UtteranceEncoding.TokensEndWithSemicolon` | nemo/collections/nlp/nm/non_trainables/dialogue_state_tracking/utterance_encoder_nm.py:93-94 | for every history the token list is non-empty and its last token is `";"` |
| `UtteranceEncoding.ContextNoUpper` | nemo/collections/nlp/nm/non_trainables/dialogue_state_tracking/utterance_encoder_nm.py:93 | the context holds no upper-case letter |
| `UtteranceEncoding.ContextStartsWithText` | nemo/collections/nlp/nm/non_trainables/dialogue_state_tracking/utterance_encoder_nm.py:89-93 | with at least two entries (always the case after the appends) the context does not start with whitespace |
| `UtteranceEncoding.TurnTokens` | nemo/collections/nlp/nm/non_trainables/dialogue_state_tracking/utterance_encoder_nm.py:93-96 | every entry contributes at least one token, so `src_lens` is at least the number of entries |
| `UtteranceEncoding.TurnTokensAppend` | nemo/collections/nlp/nm/non_trainables/dialogue_state_tracking/utterance_encoder_nm.py:93-94 | the reference tokens of two concatenated histories are the concatenation of their tokens |
| `UtteranceEncoding.TokensAfterTurn` | nemo/collections/nlp/nm/non_trainables/dialogue_state_tracking/utterance_encoder_nm.py:89-94 | after a call the tokens are the previous context's tokens (none for an empty history), then the system utterance's words and `";"`, then the user utterance's words and `";"` |
| `UtteranceEncoding.TokensToIds` | nemo/collections/nlp/nm/non_trainables/dialogue_state_tracking/utterance_encoder_nm.py:94 | `tokens2ids` returns one id per token, the vocabulary's id of the token at the same position |
| `UtteranceEncoding.TokensToIdsAppend` | nemo/collections/nlp/nm/non_trainables/dialogue_state_tracking/utterance_encoder_nm.py:94 | the ids of concatenated token lists are the concatenated ids, so the order of tokens is kept |
| `UtteranceEncoding.ExampleFirstTurnContext` | nemo/collections/nlp/nm/non_trainables/dialogue_state_tracking/utterance_encoder_nm.py:89-93 | an empty history with system "Hello" and user "Hi there" gives the context "hello ; hi there ;" |
| `UtteranceEncoding.ExampleNormalizedTexts` | nemo/collections/nlp/nm/non_trainables/dialogue_state_tracking/utterance_encoder_nm.py:93 | the texts of that history normalize and join to "hello ; hi there" |
| `UtteranceEncoding.ExampleNormalizeHello` | nemo/collections/nlp/nm/non_trainables/dialogue_state_tracking/utterance_encoder_nm.py:93 | "Hello" normalizes to "hello" |
| `UtteranceEncoding.ExampleNormalizeHiThere` | nemo/collections/nlp/nm/non_trainables/dialogue_state_tracking/utterance_encoder_nm.py:93 | "Hi there" normalizes to "hi there" |
| `UtteranceEncoding.ExampleEmptyUtterances` | nemo/collections/nlp/nm/non_trainables/dialogue_state_tracking/utterance_encoder_nm.py:89-94 | two empty utterances on an empty history give the context "; ;" and the tokens ";" and ";" |
| `PyStr.ToLower` | nemo/collections/nlp/nm/non_trainables/dialogue_state_tracking/utterance_encoder_nm.py:93 | the lower-cased character is not upper-case, keeps its whitespace status, and other characters are unchanged |
| `PyStr.Lower` | nemo/collections/nlp/nm/non_trainables/dialogue_state_tracking/utterance_encoder_nm.py:93 | the modelled lower-casing (character by character, as `ToLower`) keeps the length and the whitespace positions and leaves no upper-case letter |
| `PyStr.LeadingSpace` | nemo/collections/nlp/nm/non_trainables/dialogue_state_tracking/utterance_encoder_nm.py:93 | the count of leading characters that are all whitespace, stopped by a non-whitespace character or the end |
| `PyStr.TrailingSpace` | nemo/collections/nlp/nm/non_trainables/dialogue_state_tracking/utterance_encoder_nm.py:93 | the count of trailing characters that are all whitespace, stopped by a non-whitespace character or the start |
| `PyStr.StripEnd` | nemo/collections/nlp/nm/non_trainables/dialogue_state_tracking/utterance_encoder_nm.py:93 | the kept text ends at or after where it starts, only whitespace follows it, and it is empty exactly when the string is all whitespace |
| `PyStr.Strip` | nemo/collections/nlp/nm/non_trainables/dialogue_state_tracking/utterance_encoder_nm.py:93 | `str.strip()` neither starts nor ends with whitespace and is empty exactly when the string is all whitespace |
| `PyStr.StripDecomposition` | nemo/collections/nlp/nm/non_trainables/dialogue_state_tracking/utterance_encoder_nm.py:93 | the string is its leading whitespace, then the stripped text, then its trailing whitespace |
| `PyStr.StripIdempotent` | nemo/collections/nlp/nm/non_trainables/dialogue_state_tracking/utterance_encoder_nm.py:93 | stripping twice is stripping once |
| `PyStr.LowerAll` | nemo/collections/nlp/nm/non_trainables/dialogue_state_tracking/utterance_encoder_nm.py:93-94 | every word lower-cased, in order |
| `PyStr.WordLength` | nemo/collections/nlp/nm/non_trainables/dialogue_state_tracking/utterance_encoder_nm.py:94 | the first word ends at the first whitespace character or at the end |
| `PyStr.WordLengthUnique` | nemo/collections/nlp/nm/non_trainables/dialogue_state_tracking/utterance_encoder_nm.py:94 | any position that ends a whitespace-free prefix at whitespace or at the end is the first word's length |
| `PyStr.WordLengthBeforeWhitespace` | nemo/collections/nlp/nm/non_trainables/dialogue_state_tracking/utterance_encoder_nm.py:94 | text after a whitespace character does not extend the first word |
| `PyStr.SplitWords` | nemo/collections/nlp/nm/non_trainables/dialogue_state_tracking/utterance_encoder_nm.py:94 | every word of `str.split()` is non-empty and whitespace-free, and there are no words exactly when the string is all whitespace |
| `PyStr.SplitAtWhitespace` | nemo/collections/nlp/nm/non_trainables/dialogue_state_tracking/utterance_encoder_nm.py:94 | splitting a string at a whitespace character gives the words of the left part followed by those of the right part |
| `PyStr.SplitSkipsLeadingWhitespace` | nemo/collections/nlp/nm/non_trainables/dialogue_state_tracking/utterance_encoder_nm.py:94 | leading whitespace adds no words |
| `PyStr.SplitSkipsTrailingWhitespace` | nemo/collections/nlp/nm/non_trainables/dialogue_state_tracking/utterance_encoder_nm.py:94 | trailing whitespace adds no words |
| `PyStr.SplitSingleWord` | nemo/collections/nlp/nm/non_trainables/dialogue_state_tracking/utterance_encoder_nm.py:94 | a non-empty whitespace-free string is one word |
| `PyStr.SplitBeforeSemicolon` | nemo/collections/nlp/nm/non_trainables/dialogue_state_tracking/utterance_encoder_nm.py:93-94 | appending `" ;"` appends the word `";"` |
| `PyStr.SplitAroundSemicolon` | nemo/collections/nlp/nm/non_trainables/dialogue_state_tracking/utterance_encoder_nm.py:93-94 | the separator `" ; "` becomes the word `";"` between the words on either side |
| `PyStr.SplitIgnoresStrip` | nemo/collections/nlp/nm/non_trainables/dialogue_state_tracking/utterance_encoder_nm.py:93-94 | stripping does not change the words |
| `PyStr.SplitLower` | nemo/collections/nlp/nm/non_trainables/dialogue_state_tracking/utterance_encoder_nm.py:93-94 | the words of a lower-cased string are the lower-cased words |
| `PyStr.SplitJoinRoundTrip` | nemo/collections/nlp/nm/non_trainables/dialogue_state_tracking/utterance_encoder_nm.py:94 | joining non-empty whitespace-free words with a space and splitting gives the words back |
| `PyStr.JoinNoUpper` | nemo/collections/nlp/nm/non_trainables/dialogue_state_tracking/utterance_encoder_nm.py:93 | joining strings without upper-case letters with such a separator gives none |
| `PyStr.StripNoUpper` | nemo/collections/nlp/nm/non_trainables/dialogue_state_tracking/utterance_encoder_nm.py:93 | stripping keeps a string free of upper-case letters |
| `PyStr.ConcatNoUpper` | nemo/collections/nlp/nm/non_trainables/dialogue_state_tracking/utterance_encoder_nm.py:93 | concatenating strings free of upper-case letters gives one free of them |

## Left out

- The tensor construction, the batch dimension added by `unsqueeze(0)` and the device placement (lines 95-96): `Forward` returns the id sequence and its length as values.
- The port declarations `input_ports` / `output_ports` and the `add_port_docs` decorator (lines 39-65): framework metadata without behaviour.
- `logging.debug` (line 91): output only.
- The vocabulary's `tokens2ids` is a collaborator outside this file: it is modelled as a total function from token to id applied to each token, so its out-of-vocabulary policy and any exception it may raise are not modelled.
- `PyStr.ToLower`: lower-cases only the upper-case letters of ASCII and of the Latin-1 supplement; the rest of Unicode case mapping, including mappings that produce more than one character, is not modelled, and "no upper-case letter" is meant in that sense.
- History items are modelled as (speaker, text) pairs; items of another shape, which the Python list would accept, are not modelled. The speaker tag never enters the context.
- The framework base class set up by `super().__init__()` and the data descriptor beyond its vocabulary.
- Concurrent calls on one history list: the model is sequential.
