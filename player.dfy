/** The per-turn decision rules of a bot for the word game Undercover: which word
    to say (`speak`) and whom to vote out (`vote`), for a caller who holds the secret
    word and for Mr White, who holds none (an empty secret word).

    The vocabulary and the embedding table, which the program loads once at import
    time, are parameters here. Player ids are integers; `list_words` and
    `list_players` are the words spoken since the start of the game and who spoke
    each; `roles` maps a player id to a revealed role ("C", "U" or "W"). */
module Player {
  import opened Python
  import opened Distance

  /** What `speak` does: hand over to `speak_adjacency` (the branch for a caller with
      a secret word, which has no behaviour of its own to model), return a word, or
      raise. */
  datatype Speech = Adjacency | Spoken(word: string) | Raised(error: PyError)

  // ---------------------------------------------------------------------------
  // speak
  // ---------------------------------------------------------------------------

  /** `speak_random(words, seed)`: the vocabulary entry at `seed`, with Python's
      indexing (negative seeds count from the end). It does not look at the words
      already spoken. */
  function SpeakRandom(words: seq<string>, seed: int): (r: Result<string>)
    ensures r.Ok? <==> -|words| <= seed < |words|
    ensures r.Err? ==> r.error == IndexError
    ensures r.Ok? ==> r.value in words
    ensures r.Ok? && 0 <= seed ==> r.value == words[seed]
    ensures r.Ok? && seed < 0 ==> r.value == words[|words| + seed]
  {
    Index(words, seed)
  }

  /** `speak`: a caller with a secret word is sent to `speak_adjacency`; Mr White
      says the vocabulary word at `n_players*player % len(words)`, which depends on
      nothing else. An empty vocabulary makes the modulo raise ZeroDivisionError. */
  function Speak(words: seq<string>, n_players: int, player: int, secret_word: string,
                 list_words: seq<string>, list_players: seq<int>, roles: map<int, string>): (r: Speech)
    ensures r.Adjacency? <==> |secret_word| > 0
    ensures r.Raised? <==> |secret_word| == 0 && |words| == 0
    ensures r.Raised? ==> r.error == ZeroDivisionError
    ensures r.Spoken? ==> r.word in words
    ensures r.Spoken? ==> r.word == words[(n_players * player) % |words|]
  {
    if |secret_word| > 0 then Adjacency
    else
      match PyMod(n_players * player, |words|)
      case Err(e) => Raised(e)
      case Ok(seed) =>
        match SpeakRandom(words, seed)
        case Ok(w) => Spoken(w)
        case Err(e) => Raised(e)
  }

  /** Mr White's word is a function of the vocabulary, `n_players` and `player` only:
      the words spoken, who spoke them and the known roles play no part. */
  lemma ImpostorWordIgnoresHistory(words: seq<string>, n_players: int, player: int,
                                   list_words: seq<string>, list_players: seq<int>, roles: map<int, string>,
                                   list_words': seq<string>, list_players': seq<int>, roles': map<int, string>)
    ensures Speak(words, n_players, player, "", list_words, list_players, roles)
         == Speak(words, n_players, player, "", list_words', list_players', roles')
  {
  }

  /** With a non-empty vocabulary Mr White always gets a word, at an index in range. */
  lemma ImpostorAlwaysSpeaks(words: seq<string>, n_players: int, player: int,
                             list_words: seq<string>, list_players: seq<int>, roles: map<int, string>)
    requires |words| > 0
    ensures 0 <= (n_players * player) % |words| < |words|
    ensures Speak(words, n_players, player, "", list_words, list_players, roles)
         == Spoken(words[(n_players * player) % |words|])
  {
  }

  /** The documented promise "not a word that has already been given" is not kept:
      with 5 players, player 4 and the vocabulary ["milk", "lion"], Mr White says
      "milk" again after it was said. */
  lemma ImpostorMayRepeatWord()
    ensures Speak(["milk", "lion"], 5, 4, "", ["milk"], [3], map[]) == Spoken("milk")
  {
  }

  // ---------------------------------------------------------------------------
  // vote_white
  // ---------------------------------------------------------------------------

  /** The first index at or after `from` whose speaker is not `player`, if any. */
  function FirstOtherIndex(list_players: seq<int>, player: int, from: nat): (r: Option<nat>)
    requires from <= |list_players|
    ensures r.Some? ==> from <= r.value < |list_players| && list_players[r.value] != player
    ensures r.Some? ==> forall j | from <= j < r.value :: list_players[j] == player
    ensures r.None? ==> forall j | from <= j < |list_players| :: list_players[j] == player
    decreases |list_players| - from
  {
    if from == |list_players| then None
    else if list_players[from] != player then Some(from)
    else FirstOtherIndex(list_players, player, from + 1)
  }

  /** Mr White's vote: the first speaker in `list_players` who is not the caller. When
      every entry is the caller (or none was spoken) the scan runs off the end of the
      list and raises IndexError. */
  function FirstOtherSpeaker(list_players: seq<int>, player: int): (r: Result<int>)
    ensures r.Ok? <==> exists k | 0 <= k < |list_players| :: list_players[k] != player
    ensures r.Err? ==> r.error == IndexError
    ensures r.Ok? ==> r.value != player && r.value in list_players
    ensures r.Ok? ==> exists k | 0 <= k < |list_players| ::
              list_players[k] == r.value && forall j | 0 <= j < k :: list_players[j] == player
  {
    match FirstOtherIndex(list_players, player, 0)
    case Some(k) => Ok(list_players[k])
    case None => Err(IndexError)
  }

  /** `vote_white`: scans `list_players` from the front while the entry is the caller.
      It reads neither `n_players`, `list_words` nor `roles`. */
  method VoteWhite(n_players: int, player: int, list_words: seq<string>, list_players: seq<int>,
                   roles: map<int, string>) returns (r: Result<int>)
    ensures r == FirstOtherSpeaker(list_players, player)
  {
    var votei := 0;
    // Python evaluates `list_players[votei]` in the loop guard; it raises once
    // `votei` reaches the end of the list.
    while votei < |list_players| && list_players[votei] == player
      invariant 0 <= votei <= |list_players|
      invariant FirstOtherIndex(list_players, player, votei) == FirstOtherIndex(list_players, player, 0)
    {
      votei := votei + 1;
    }
    if votei == |list_players| {
      r := Err(IndexError);
    } else {
      r := Ok(list_players[votei]);
    }
  }

  /** The documented promise "not a player that has already been eliminated" is not
      kept: `roles` is never read, so Mr White (player 4) votes for player 2 although
      player 2's role is already known. */
  lemma WhiteVoteMayChooseEliminated()
    ensures Vote(map[], (u: Vector, v: Vector) => 0.0, 5, 4, "", ["milk", "lion", "house"], [2, 4, 3],
                 map[2 := "U"]) == Ok(2)
  {
  }

  // ---------------------------------------------------------------------------
  // vote_nonwhite
  // ---------------------------------------------------------------------------

  /** `vote_nonwhite` as written: once the distances are computed, the call `.int()`
      on the numpy integer returned by `np.argmin` raises AttributeError, so it never
      returns a player. */
  function VoteNonwhiteAsWritten(table: Table, metric: Metric, n_players: int, player: int,
                                 secret_word: string, list_words: seq<string>, list_players: seq<int>,
                                 roles: map<int, string>): (r: Result<int>)
    ensures r.Err?
    ensures var cd := ComputeDistance(table, metric, secret_word, list_words);
      cd.Err? ==> r == Err(cd.error)
    ensures ComputeDistance(table, metric, secret_word, list_words).Ok? ==> r.error == AttributeError
  {
    match ComputeDistance(table, metric, secret_word, list_words)
    case Err(e) => Err(e)
    case Ok(_) => Err(AttributeError)
  }

  /** `vote_nonwhite` with the index from `np.argmin` used as it was evidently meant:
      the speaker of the word closest to the secret word, the earliest such word on
      ties. The caller is not excluded, and `roles` is not read. */
  function VoteNonwhite(table: Table, metric: Metric, n_players: int, player: int,
                        secret_word: string, list_words: seq<string>, list_players: seq<int>,
                        roles: map<int, string>): (r: Result<int>)
    ensures var cd := ComputeDistance(table, metric, secret_word, list_words);
      r.Ok? <==> cd.Ok? && exists i | 0 <= i < |list_players| :: IsFirstMin(cd.value, i)
    ensures var cd := ComputeDistance(table, metric, secret_word, list_words);
      r.Ok? ==> cd.Ok? && exists i | 0 <= i < |list_players| ::
        IsFirstMin(cd.value, i) && list_players[i] == r.value
    ensures var cd := ComputeDistance(table, metric, secret_word, list_words);
      r.Err? ==> if cd.Err? then r.error == cd.error else r.error == IndexError
    ensures (ComputeDistance(table, metric, secret_word, list_words).Ok? && |list_words| <= |list_players|)
      ==> r.Ok?
  {
    match ComputeDistance(table, metric, secret_word, list_words)
    case Err(e) => Err(e)
    case Ok(d) =>
      var closest := ArgMin(d);
      ArgMinIsFirstMin(d, closest);
      Index(list_players, closest)
  }

  /** A call `vote(5, 4, "cat", ["milk"], [3])` with one-dimensional embeddings and
      squared distance: as written the call raises AttributeError; with the argmin
      index used directly it accuses player 3, who said the only (so the closest) word. */
  lemma IntCallRaises()
    ensures var table := map["cat" := [0.0], "milk" := [1.0]];
            var metric := (u: Vector, v: Vector) => if |u| > 0 && |v| > 0 then (u[0] - v[0]) * (u[0] - v[0]) else 0.0;
            VoteNonwhiteAsWritten(table, metric, 5, 4, "cat", ["milk"], [3], map[]) == Err(AttributeError) &&
            VoteNonwhite(table, metric, 5, 4, "cat", ["milk"], [3], map[]) == Ok(3)
  {
  }

  /** The documented promise "cannot be yours" is not kept: when the caller said the
      closest word, the caller is accused. */
  lemma NonwhiteMayAccuseCaller()
    ensures var table := map["cat" := [0.0], "milk" := [1.0]];
            var metric := (u: Vector, v: Vector) => 0.0;
            VoteNonwhite(table, metric, 5, 3, "cat", ["milk"], [3], map[]) == Ok(3)
  {
  }

  // ---------------------------------------------------------------------------
  // vote
  // ---------------------------------------------------------------------------

  /** `vote`: a caller with a secret word votes by distance, Mr White by the scan. */
  function Vote(table: Table, metric: Metric, n_players: int, player: int, secret_word: string,
                list_words: seq<string>, list_players: seq<int>, roles: map<int, string>): (r: Result<int>)
    ensures |secret_word| > 0 ==>
      r == VoteNonwhite(table, metric, n_players, player, secret_word, list_words, list_players, roles)
    ensures |secret_word| == 0 ==> r == FirstOtherSpeaker(list_players, player)
    ensures |secret_word| == 0 && r.Ok? ==> r.value in list_players && r.value != player
  {
    if |secret_word| > 0 then
      VoteNonwhite(table, metric, n_players, player, secret_word, list_words, list_players, roles)
    else
      FirstOtherSpeaker(list_players, player)
  }
}
