/** The trajectory filter at the head of `Handler` (RandomOrientation/main.cpp:299-318).
    A trajectory is the sequence of facet indices a beam went through; the mask is the
    list of chains read from the parameter file. When `Sorting` is 0 every beam passes,
    otherwise a beam passes only if some chain has its length and equals it element by
    element. */
module TrajectoryFilter {

  type Trajectory = seq<nat>

  /** The comparison of one mask chain with a beam's trajectory: same size (`szP == c->sz`)
      and equal facet indices in order. */
  predicate Matches(chain: Trajectory, trajectory: Trajectory)
  {
    |chain| == |trajectory| && forall i :: 0 <= i < |chain| ==> chain[i] == trajectory[i]
  }

  /** Whether `Handler` goes on to collect a beam with this trajectory. */
  predicate Passes(sorting: nat, mask: seq<Trajectory>, trajectory: Trajectory)
  {
    sorting == 0 || exists k :: 0 <= k < |mask| && Matches(mask[k], trajectory)
  }

  /** The filter as the source runs it: an outer loop over the chains of the mask that
      skips chains of the wrong size, and an inner loop that walks both sequences while
      their elements agree. */
  method Accepts(sorting: nat, mask: seq<Trajectory>, trajectory: Trajectory) returns (flag: bool)
    ensures flag == Passes(sorting, mask, trajectory)
  {
    if sorting == 0 {
      return true;
    }
    flag := false;
    var k := 0;
    while k < |mask|
      invariant 0 <= k <= |mask|
      invariant forall j :: 0 <= j < k ==> !Matches(mask[j], trajectory)
    {
      var chain := mask[k];
      if |trajectory| == |chain| {
        var i := 0;
        while i < |chain| && chain[i] == trajectory[i]
          invariant 0 <= i <= |chain|
          invariant forall j :: 0 <= j < i ==> chain[j] == trajectory[j]
        {
          i := i + 1;
        }
        if i == |chain| {
          flag := true;
          break;
        }
      }
      k := k + 1;
    }
  }

  /** Matching a chain is plain sequence equality, so a beam passes exactly when
      filtering is off or its trajectory is one of the listed chains. */
  lemma PassesIffListed(sorting: nat, mask: seq<Trajectory>, trajectory: Trajectory)
    ensures Passes(sorting, mask, trajectory) <==> (sorting == 0 || trajectory in mask)
  {
    if sorting != 0 {
      if trajectory in mask {
        var k :| 0 <= k < |mask| && mask[k] == trajectory;
        assert Matches(mask[k], trajectory);
      }
      if exists k :: 0 <= k < |mask| && Matches(mask[k], trajectory) {
        var k :| 0 <= k < |mask| && Matches(mask[k], trajectory);
        assert mask[k] == trajectory;
      }
    }
  }

  /** With the mask [[2, 5]] only the trajectory [2, 5] passes; [2, 5, 1] (longer)
      and [0, 3] (different facets) are dropped. */
  lemma OnlyExactTrajectoryPasses()
    ensures Passes(1, [[2, 5]], [2, 5])
    ensures !Passes(1, [[2, 5]], [2, 5, 1])
    ensures !Passes(1, [[2, 5]], [0, 3])
  {
    PassesIffListed(1, [[2, 5]], [2, 5]);
    PassesIffListed(1, [[2, 5]], [2, 5, 1]);
    PassesIffListed(1, [[2, 5]], [0, 3]);
  }
}
