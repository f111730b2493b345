/** The distance side of the player: one distance per spoken word, measured from
    the caller's secret word in the embedding table, and numpy's `argmin`, which
    picks the first position of the smallest distance. */
module Distance {
  import opened Python

  /** One embedding row. */
  type Vector = seq<real>

  /** The embedding table: each known word's vector. */
  type Table = map<string, Vector>

  /** The distance between two embedding rows; in the program it is the L2 norm of
      their difference, here any real-valued function of the two rows. */
  type Metric = (Vector, Vector) -> real

  /** `compute_distance(main_word, other_words)`: looks up the main word and then every
      other word (KeyError on the first one missing from the table), concatenates the
      other rows (ValueError when there are none) and, as the code evidently intends,
      gives for each other word in order its distance to the main word. */
  function ComputeDistance(table: Table, metric: Metric, main: string, others: seq<string>): (r: Result<seq<real>>)
    ensures r.Ok? <==> main in table && |others| > 0 && forall i | 0 <= i < |others| :: others[i] in table
    ensures r.Err? && main in table && (forall i | 0 <= i < |others| :: others[i] in table) ==> r.error == ValueError
    ensures r.Err? && (main !in table || exists i | 0 <= i < |others| :: others[i] !in table) ==> r.error == KeyError
    ensures r.Ok? ==> |r.value| == |others|
    ensures r.Ok? ==> forall i | 0 <= i < |others| :: r.value[i] == metric(table[main], table[others[i]])
  {
    if main !in table || exists i | 0 <= i < |others| :: others[i] !in table then Err(KeyError)
    else if |others| == 0 then Err(ValueError)
    else Ok(seq(|others|, i requires 0 <= i < |others| => metric(table[main], table[others[i]])))
  }

  /** `k` is where a scan from the left first meets the smallest value of `d`. */
  predicate IsFirstMin(d: seq<real>, k: int)
  {
    0 <= k < |d| &&
    (forall j | 0 <= j < |d| :: d[k] <= d[j]) &&
    (forall j | 0 <= j < k :: d[k] < d[j])
  }

  /** `np.argmin(d, axis=0)` on a one-dimensional array: the index of the minimum,
      the first one on ties; an empty array has none. */
  function ArgMin(d: seq<real>): (k: nat)
    requires |d| > 0
    ensures IsFirstMin(d, k)
  {
    if |d| == 1 then 0
    else
      var k := ArgMin(d[..|d| - 1]);
      if d[|d| - 1] < d[k] then |d| - 1 else k
  }

  /** The first-occurrence minimum is unique, so it is exactly what ArgMin returns. */
  lemma ArgMinIsFirstMin(d: seq<real>, k: int)
    requires |d| > 0
    ensures IsFirstMin(d, k) <==> k == ArgMin(d)
  {
  }
}
