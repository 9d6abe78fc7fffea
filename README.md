# ADK Go tutorial: the tool handlers

The repository is a set of experiments with Google's Agent Development Kit for
Go. Each experiment's `main` wires an LLM agent, workflow agents, a runner and
in-memory session, memory and artifact services, all taken from the ADK
library. The logic the tutorial writes itself lives in its tool handlers. This
project models three of them and proves what each promises to the model that
calls it:

- `recall` (long-term memory). It searches the memory service and turns the
  entries found into text snippets. Entries without content are skipped, part
  texts are concatenated and empty texts are dropped. When nothing survives it
  returns a fixed fallback, and when the search fails it returns an error
  message. Module `LongTermMemory`.
- `rollDiceHandler` (custom tool). It defaults a non-positive dice count to 1
  and a non-positive side count to 6, fills an array with one roll per die and
  accumulates the total. Module `CustomTool`.
- `saveColorHandler` / `getColorHandler` (session state). They write and read
  the user-scoped key `KeyPrefixUser + "fav_color"` of the session State. Save
  reports whether the write succeeded. Get falls back to `"unknown"`.
  Module `SessionState`.

`Wrappers` holds the `Option` type the other modules share.

Environment inputs are parameters:

- The memory search is a function from query to answer. The answer is either
  the list of entries or the error it reported.
- `rand.Intn` is a sequence of draws, each in `[0, sides)`.
- Whether the State accepts a `Set` is a `SetOutcome` passed to `Set`.
- The State's `Get` is a plain map lookup (`SessionState.Get`) that fails
  exactly when the key is absent.

## Model

| member | source | states |
|---|---|---|
| LongTermMemory.Recall | experiments/long_term_memory/main.go:42-72 | the handler, written with the source's two loops; it returns exactly `Recalled` of the search answer for the query |
| LongTermMemory.Recalled | experiments/long_term_memory/main.go:44-71 | the returned list is never empty; on a search error it is a single string that starts with "Error searching memory: " |
| LongTermMemory.RecalledFound | experiments/long_term_memory/main.go:67-71 | on a successful search: the result is `["No relevant memories found."]` when no text survives, and otherwise it is the surviving texts |
| LongTermMemory.Kept | experiments/long_term_memory/main.go:52-65 | there are at most as many surviving texts as raw entries, and none of them is empty |
| LongTermMemory.JoinPartsAppend | experiments/long_term_memory/main.go:57-60 | concatenating part texts distributes over splitting the part list, so the text is the in-order concatenation of the parts |
| LongTermMemory.JoinPartsEmptyIff | experiments/long_term_memory/main.go:57-61 | the concatenated text is empty if and only if every part's text is empty |
| LongTermMemory.DroppedIff | experiments/long_term_memory/main.go:54-64 | an entry is dropped if and only if its content is nil or all of its part texts are empty |
| LongTermMemory.KeptAppend | experiments/long_term_memory/main.go:52-65 | filtering a concatenation of responses gives the concatenation of the filtered parts, so the relative order is preserved |
| LongTermMemory.DroppedContributesNothing | experiments/long_term_memory/main.go:54-64 | an entry with nil content, or with only empty texts, changes nothing wherever it stands in the response |
| LongTermMemory.SurvivorContributesItsText | experiments/long_term_memory/main.go:57-63 | a kept entry contributes exactly its concatenated text, between the contributions of the entries before it and after it |
| LongTermMemory.KeptPositionsCorrect | experiments/long_term_memory/main.go:52-65 | the k-th kept text is the text of a non-dropped entry at a strictly increasing response position, and every non-dropped entry appears |
| CustomTool.EffectiveNumDice | experiments/custom_tool/main.go:50-52 | the dice count used is at least 1: a positive request is used unchanged, and a non-positive one becomes 1 |
| CustomTool.EffectiveSides | experiments/custom_tool/main.go:53-55 | the side count used is at least 1: a positive request is used unchanged, and a non-positive one becomes 6 |
| CustomTool.RollDice | experiments/custom_tool/main.go:48-70 | one roll per effective die (1 for a non-positive request, the request otherwise); each roll is draw + 1 and lies in [1, sides]; the total is the sum of the rolls and lies between the dice count and dice times sides |
| CustomTool.SumBounds | experiments/custom_tool/main.go:58-63 | a sum of n values that each lie in [lo, hi] lies in [n * lo, n * hi] |
| SessionState.GetAfterWrite | experiments/session_state/main.go:55-66 | a lookup of the key a `Set` just wrote yields the written value, and lookups of every other key are unaffected; the round trip and the frame of save rest on this |
| SessionState.State.Set | experiments/session_state/main.go:56-61 | it reports an error exactly when the store refuses; an accepted write updates that one key, and a refused write changes nothing |
| SessionState.SaveColor | experiments/session_state/main.go:52-62 | success holds if and only if `Set` succeeded; on success only `KeyPrefixUser + "fav_color"` changes, to the colour; on failure the State is unchanged; no other key ever changes |
| SessionState.GetColor | experiments/session_state/main.go:64-76 | "unknown" when the key is absent, "unknown" when it holds a non-string, and the stored string otherwise; as a function of the map it cannot change the State |
| SessionState.GetColorIgnoresOtherKeys | experiments/session_state/main.go:65-75 | writing any key other than the colour key does not change what get answers |
| SessionState.SaveThenGetColor | experiments/session_state/main.go:55-75 | writing colour c under the key that get reads makes get answer c |
| SessionState.SaveThenGet | experiments/session_state/main.go:52-76 | after a successful save of c the next get answers c; after a refused save get answers what it answered before |

## Left out

- The `main` functions and `runTurn`: environment variables, model client construction, launcher and runner setup, and printing the event stream. These are I/O and configuration.
- The ADK orchestration runtime: the LLM tool-calling loop, the sequential, parallel and loop agents, the runner, and the session, memory and artifact services. Its source is not part of this model, and the experiments only configure it.
- `askHumanHandler` (experiments/human_in_the_loop/main.go:45-50): a blocking read from standard input whose only logic is trimming whitespace.
- `saveReportHandler` (experiments/generate_artifact/main.go:43-53): a single call into the artifact service plus a success flag.
- The `fmt.Printf` and `log.Printf` debug output in the handlers.
- The randomness of `rand.Intn`. It is a sequence of draws that `RollDice` requires to lie in `[0, sides)` and to hold at least one draw per die.
- The concrete value of `session.KeyPrefixUser`, which is an unconstrained constant here. Also left out is the JSON schema that `functiontool.New` derives from the input and output types.
- The memory search is one oracle call. Its asynchrony and the query's effect on ranking are not modelled, and an error is represented by its printed text.
- Part: only its text is modelled. Non-text parts carry an empty `Text` in the source, so they contribute nothing there. A nil part pointer would panic in Go and is not modelled.
- CustomTool.RollDice: Go's `int` is 64 bits, and the model's integers are unbounded. The sum cannot wrap in the model, and allocating `NumDice` integers is assumed to succeed.
- SessionState.Get: the store's lookup is a plain map lookup that fails exactly when the key is absent. Other read errors are not modelled. In the source any error from `Get` makes get answer "unknown". So `SaveThenGet` holds only under this assumption.
- SessionState.State.Set: the refusal is an outcome chosen by the store. The model assumes a refused write leaves the map unchanged.
- Cross-session visibility of user-scoped keys is a guarantee of the session store, not of the handlers, and is not modelled.
- A memory whose text is literally "No relevant memories found." produces the same result as no memories at all. `RecalledFound` therefore states the fallback one way only.
