# Undercover player: decision rules

This project models the per-turn decision rules of a bot for the word game
Undercover (`player.py`). Each turn the game calls the bot with the number of
players, the caller's id, the caller's secret word (empty for Mr White, who has
none), the words spoken so far, who spoke each one, and the roles revealed so far.

- `speak` sends a caller who holds a secret word to `speak_adjacency`. Mr White gets
  the vocabulary word at index `n_players*player % len(words)` through `speak_random`.
- `vote` sends a caller who holds a secret word to `vote_nonwhite`. As written,
  that rule never returns a player: its `.int()` call on numpy's `argmin` result
  raises AttributeError (see "## Findings"). The model keeps that behaviour in
  `VoteNonwhiteAsWritten`, and `Vote` uses the corrected rule `VoteNonwhite`. The
  corrected rule accuses whoever spoke the word whose embedding is closest to the
  secret word's; on a tie the first such word wins. Mr White goes to `vote_white`,
  which accuses the first speaker in the list who is not the caller.

Apart from that one correction, the model follows what the code does. The
docstrings promise more than the code delivers, and the lemmas named below show
each gap on a concrete input. Python's
exceptions are modelled as results, so no precondition is needed:
- IndexError from indexing;
- ZeroDivisionError from `%` on an empty vocabulary;
- KeyError from a word missing from the embedding table;
- ValueError from concatenating no rows;
- AttributeError from `.int()`.

The program loads the vocabulary and the embedding table at import time. In the
model they are parameters. The Euclidean norm of the difference between two
embedding rows is an opaque `metric` parameter.

Files:
- `python.dfy` (module `Python`): exceptions, `Result`/`Option`, list indexing, `%`.
- `distance.dfy` (module `Distance`): `compute_distance` and `np.argmin`.
- `player.dfy` (module `Player`): `speak`, `speak_random`, `vote`, `vote_white`,
  `vote_nonwhite`.

## Model

| member | source | states |
|---|---|---|
| Python.Index | player.py:64 | Python list indexing succeeds exactly for `-len <= i < len`. It returns a member of the list: `s[i]`, or `s[len+i]` for a negative index. Any other index raises IndexError. |
| Python.PyMod | player.py:61 | `a % len(words)` raises ZeroDivisionError exactly when the vocabulary is empty. Otherwise the result lies in `[0, len)` and satisfies `a == (a // b) * b + a % b`. |
| Distance.ComputeDistance | player.py:71-74 | As the code evidently intends (see "## Left out"): succeeds exactly when the main word and every other word are in the table and there is at least one other word. It then gives one distance per other word, in order, each being the metric between the main word's row and that word's row. A missing word raises KeyError; no other words raises ValueError. |
| Distance.ArgMin | player.py:113 | `np.argmin` returns an in-range index whose value is `<=` every entry and strictly `<` every entry before it, i.e. the first occurrence of the minimum. |
| Distance.ArgMinIsFirstMin | player.py:113 | The first-occurrence minimum is unique: an index is the first minimum if and only if it is ArgMin's result. |
| Player.SpeakRandom | player.py:63-64 | `words[seed]` succeeds exactly for a seed in `[-len, len)` and then returns `words[seed]`, or `words[len+seed]` for a negative seed. Otherwise it raises IndexError. |
| Player.Speak | player.py:58-61 | A non-empty secret word, and only that, leads to `speak_adjacency`. Mr White with an empty vocabulary, and only then, gets ZeroDivisionError. Any word spoken is the vocabulary word at `n_players*player % len(words)`. |
| Player.ImpostorWordIgnoresHistory | player.py:60-61 | Mr White's word is the same whatever `list_words`, `list_players` and `roles` are. |
| Player.ImpostorAlwaysSpeaks | player.py:61-64 | For a non-empty vocabulary the index `n_players*player % len(words)` is in range, and Mr White speaks the word at that index. |
| Player.ImpostorMayRepeatWord | player.py:32 | Mr White can repeat a word already spoken, despite the documented promise: vocabulary `["milk", "lion"]`, 5 players, player 4, after "milk". |
| Player.FirstOtherIndex | player.py:117-119 | Gives the first index at or after `from` whose speaker is not the caller, and every entry before it is the caller. Gives none exactly when every remaining entry is the caller. |
| Player.FirstOtherSpeaker | player.py:116-120 | Mr White's vote succeeds exactly when some speaker differs from the caller. The vote then differs from the caller, appears in `list_players`, and sits at an index before which every entry is the caller. Otherwise it raises IndexError. |
| Player.VoteWhite | player.py:116-120 | The `while` scan returns exactly FirstOtherSpeaker's result: the first non-caller, or IndexError when the scan runs off the end. |
| Player.WhiteVoteMayChooseEliminated | player.py:83 | `roles` is never read: Mr White (player 4) votes for player 2 although player 2's role is known, contrary to the documented promise. |
| Player.VoteNonwhiteAsWritten | player.py:111-114 | As written, `vote_nonwhite` never returns a player. Once the distances are computed it raises AttributeError; before that it raises compute_distance's error. |
| Player.VoteNonwhite | player.py:111-114 | Succeeds exactly when the distances exist and the first-minimum index is within `list_players`. The accused player is `list_players[i]`, where `i` is the first index of the smallest distance. An error is compute_distance's own error or IndexError. It always succeeds when the distances exist and `len(list_words) <= len(list_players)`. |
| Player.IntCallRaises | player.py:113 | On the call `vote(5, 4, "cat", ["milk"], [3])` the as-written rule raises AttributeError, while the corrected rule accuses player 3, who spoke the only word. |
| Player.NonwhiteMayAccuseCaller | player.py:111-114 | The corrected rule can accuse the caller, contrary to the documented "cannot be yours". |
| Player.Vote | player.py:106-109 | A non-empty secret word leads to the distance vote, in its corrected form `VoteNonwhite` from "## Findings" (as written that branch always raises). An empty one leads to Mr White's scan. Mr White's successful vote is a speaker other than the caller. |

## Left out

- Loading the word list and its adjacency graph, and building or loading the embedding table (player.py:18-24): I/O and foreign libraries. The vocabulary and the table are parameters.
- The numeric body of `compute_distance`: numpy broadcasting and `np.linalg.norm`. The metric is an opaque real-valued function of two rows.
- Distance.ComputeDistance: models the evidently intended shape, one distance per other word. The table returned by `create_or_load_embeddings` is not part of this model, and the code as written does not give that shape for every table. If each word maps to a one-dimensional row, `np.concatenate(..., axis=0)` joins the rows end to end instead of stacking them, so with two or more other words the subtraction fails to broadcast (ValueError). If the table is a bare array, `table[main_word]` raises IndexError. If each row has shape (1, d), the norm is taken along the wrong axis. With exactly one other word and one-dimensional rows the code does give one distance.
- Distance.ArgMin: distances are mathematical reals. Floating-point rounding is not modelled, nor numpy's rule that a NaN counts as the minimum.
- `speak_adjacency`: it is only a debugger breakpoint, modelled as the opaque outcome `Adjacency`.
- `guess`: it always returns `None` and has no logic to model.
- `create_embeddings.py`: a `__main__` block that prints shapes. It is I/O scaffolding only.
- The documented promises the code does not keep are not proved, because they are false. These are: no repeated word for Mr White, no eliminated player for `vote_white`, and never the caller for `vote_nonwhite`. The lemmas above exhibit each one.
- Mutable default arguments: every input is an immutable value (`seq`, `map`).

## Findings

| source | as written | input that shows it | evidently intended | confidence | as-written member | corrected member |
|---|---|---|---|---|---|---|
| player.py:113 | `np.argmin(distances, axis=0).int()` calls `.int()` on a numpy integer, which has no such method, so AttributeError is raised every time | `vote(5, 4, "cat", ["milk"], [3])` with both words in the table | use the index from `np.argmin` directly and return `list_players[closest]` | high; not executed | Player.VoteNonwhiteAsWritten, Player.IntCallRaises | Player.VoteNonwhite |
