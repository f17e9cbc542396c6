/**
 * The outlier bookkeeping of `ProjectManager`: `process_curve` maps the indices a detector finds in
 * the NaN-free samples back to positions in the curve, and `prepare_data` blanks a sample once
 * enough detection methods agree on it.
 */
module OutlierVote {
  import opened Wrappers
  import opened Sequences

  /** `np.where(~np.isnan(data))[0]`, from position `j` on. */
  function PositionsFrom(data: seq<Option<real>>, j: nat): (ps: seq<nat>)
    requires j <= |data|
    ensures forall k :: 0 <= k < |ps| ==> j <= ps[k] < |data| && data[ps[k]].Some?
    ensures forall k, l :: 0 <= k < l < |ps| ==> ps[k] < ps[l]
    ensures forall i :: j <= i < |data| && data[i].Some? ==> i in ps
    decreases |data| - j
  {
    if j == |data| then []
    else if data[j].Some? then [j] + PositionsFrom(data, j + 1)
    else PositionsFrom(data, j + 1)
  }

  /** The positions of the samples that are not NaN, in increasing order. */
  function Positions(data: seq<Option<real>>): seq<nat> {
    PositionsFrom(data, 0)
  }

  /** `clean_data = data[mask]`: the samples that are not NaN, in order. */
  function Clean(data: seq<Option<real>>): (c: seq<real>)
    ensures |c| == |Positions(data)|
    ensures forall k :: 0 <= k < |c| ==> data[Positions(data)[k]] == Some(c[k])
  {
    var ps := Positions(data);
    seq(|ps|, k requires 0 <= k < |ps| => data[ps[k]].value)
  }

  /** There is nothing to detect on exactly when every sample is NaN. */
  lemma CleanEmpty(data: seq<Option<real>>)
    ensures Clean(data) == [] <==> forall i :: 0 <= i < |data| ==> data[i].None?
  {
    forall i | 0 <= i < |data| && data[i].Some? ensures i in Positions(data) {
    }
    if Clean(data) != [] {
      assert data[Positions(data)[0]].Some?;
    }
  }

  /** Detector output that indexes the clean samples. */
  predicate InRange(found: seq<int>, n: nat) {
    forall k :: 0 <= k < |found| ==> 0 <= found[k] < n
  }

  /**
   * `np.where(mask)[0][found]`: every returned position holds exactly the sample the detector
   * flagged, and the order of the found indices is kept.
   */
  function Remap(data: seq<Option<real>>, found: seq<int>): (r: seq<nat>)
    requires InRange(found, |Clean(data)|)
    ensures |r| == |found|
    ensures forall k :: 0 <= k < |r| ==> r[k] < |data| && data[r[k]] == Some(Clean(data)[found[k]])
    ensures forall k, l :: 0 <= k < |r| && 0 <= l < |r| && found[k] < found[l] ==> r[k] < r[l]
  {
    var ps := Positions(data);
    seq(|found|, k requires 0 <= k < |found| => ps[found[k]])
  }

  /** One detection method's findings: lease -> curve -> flagged sample positions. */
  type Votes = map<string, map<string, seq<nat>>>

  /** `wells.get(lease_name, {}).get(curve, [])`. */
  function VotesOf(v: Votes, lease: string, curve: string): seq<nat> {
    if lease in v && curve in v[lease] then v[lease][curve] else []
  }

  /** `all_outlier_indices`: every method's list for the well and curve, in method order. */
  function Flagged(outliers: seq<(string, Votes)>, lease: string, curve: string): (r: seq<nat>)
    ensures forall x :: x in r <==> exists m :: 0 <= m < |outliers| && x in VotesOf(outliers[m].1, lease, curve)
  {
    if outliers == [] then []
    else
      var init := outliers[..|outliers| - 1];
      var r := Flagged(init, lease, curve) + VotesOf(outliers[|outliers| - 1].1, lease, curve);
      assert forall m :: 0 <= m < |init| ==> init[m] == outliers[m];
      r
  }

  /** The values of `candidates` counted at least `minMethods` times. */
  function KeepCounted(candidates: seq<nat>, counts: multiset<nat>, minMethods: int): (r: seq<nat>)
    ensures forall x :: x in r <==> x in candidates && counts[x] >= minMethods
    ensures NoDuplicates(candidates) ==> NoDuplicates(r)
  {
    if candidates == [] then []
    else
      var rest := KeepCounted(candidates[1..], counts, minMethods);
      assert forall x :: x in candidates[1..] ==> x in candidates;
      if counts[candidates[0]] >= minMethods then
        assert NoDuplicates(candidates) ==> candidates[0] !in candidates[1..];
        [candidates[0]] + rest
      else rest
  }

  /** `indices_to_filter`: the positions at least `minMethods` of the listed findings agree on, once each. */
  function ToFilter(flagged: seq<nat>, minMethods: int): (r: seq<nat>)
    ensures forall x :: x in r <==> x in flagged && multiset(flagged)[x] >= minMethods
    ensures NoDuplicates(r)
  {
    KeepCounted(Unique(flagged), multiset(flagged), minMethods)
  }

  /** `filtered_df.iloc[indices, column] = np.nan`, leaving every other sample as it was. */
  function Blanked(column: seq<Option<real>>, indices: seq<nat>): (r: seq<Option<real>>)
    ensures |r| == |column|
  {
    seq(|column|, i requires 0 <= i < |column| => if i in indices then None else column[i])
  }

  /**
   * A sample is blanked exactly when at least `minMethods` of the listed findings for its well and
   * curve name its position; every other sample keeps its value.
   */
  lemma BlankedByVote(column: seq<Option<real>>, outliers: seq<(string, Votes)>, lease: string, curve: string,
                      minMethods: int, i: nat)
    requires i < |column|
    ensures var flagged := Flagged(outliers, lease, curve);
      Blanked(column, ToFilter(flagged, minMethods))[i] ==
        if multiset(flagged)[i] >= minMethods && i in flagged then None else column[i]
  {
  }

  /** With `min_methods` of one or less, every position any method lists is blanked. */
  lemma AnyVoteBlanks(column: seq<Option<real>>, outliers: seq<(string, Votes)>, lease: string, curve: string,
                      minMethods: int, i: nat)
    requires minMethods <= 1 && i < |column|
    requires exists m :: 0 <= m < |outliers| && i in VotesOf(outliers[m].1, lease, curve)
    ensures Blanked(column, ToFilter(Flagged(outliers, lease, curve), minMethods))[i] == None
  {
    assert i in Flagged(outliers, lease, curve);
  }
}
