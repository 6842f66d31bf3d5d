/** The parameter file PARAMS.DAT and its reader `ReadFile` (RandomOrientation/main.cpp:354-391),
    with the two switches on the particle kind: the facet table of `ReadFile` (lines 367-373)
    and the choice of particle in `main` (lines 117-152).

    The file is the sequence of its newline-separated pieces. `getline` consumes one piece,
    and `eof()` becomes true exactly when the last piece has been consumed, so piece k can be
    read iff k < |file|. Each piece carries its text and the double `strtod` makes of it. */
module ParamsFile {
  import opened Outcomes
  import opened MaskParser

  /** The number of numeric lines before the trajectory section (`NumberOfParameters`). */
  const NumberOfParameters: nat := 13

  /** The position of the particle-kind line and of the internal-reflection limit line. */
  const KindLine: nat := 0
  const ReflectionLine: nat := 10

  /** One line of the file: its text and the value `strtod` reads from it. */
  datatype Line = Line(text: string, value: real)

  // ---------------------------------------------------------------------------
  // The particle kind

  datatype ParticleKind = Prism | Bullet | Pyramid | TaperedPrism | Cup

  /** The particle `main` builds for a kind code; an unknown code builds none and
      `Body` stays NULL. */
  function KindOf(code: int): (k: Option<ParticleKind>)
    ensures k.Some? <==> 0 <= code <= 4
  {
    if code == 0 then Some(Prism)
    else if code == 1 then Some(Bullet)
    else if code == 2 then Some(Pyramid)
    else if code == 3 then Some(TaperedPrism)
    else if code == 4 then Some(Cup)
    else None
  }

  /** The number of facets of each particle. */
  function FacetsOf(kind: ParticleKind): (n: nat)
    ensures 7 <= n <= 20
  {
    match kind
    case Prism => 8
    case Bullet => 13
    case Pyramid => 7
    case TaperedPrism => 20
    case Cup => 14
  }

  /** The facet table of `ReadFile`: the value `_NoF` takes for a kind code, or None when
      the switch has no case for it and `_NoF` keeps its value. */
  function FacetCount(code: int): (n: Option<nat>)
    ensures n.Some? <==> 0 <= code <= 4
    ensures n.Some? ==> 7 <= n.value <= 20
  {
    if code == 0 then Some(8)
    else if code == 1 then Some(13)
    else if code == 2 then Some(7)
    else if code == 3 then Some(20)
    else if code == 4 then Some(14)
    else None
  }

  // ---------------------------------------------------------------------------
  // Conversions

  /** A double converted to an integer type: the fraction is dropped toward zero. */
  function Truncate(v: real): (t: int)
    ensures v >= 0.0 ==> t as real <= v < t as real + 1.0
    ensures v < 0.0 ==> t as real - 1.0 < v <= t as real
  {
    if v >= 0.0 then v.Floor else -((-v).Floor)
  }

  /** A double assigned to an `unsigned int` (`KoP = params[0]`, `Itr = params[10]`,
      `Sorting = strtod(...)`), as gcc compiles it for x86-64: the value is truncated into a
      64-bit register, which holds 0x8000000000000000 when the result does not fit a `long`,
      and the low 32 bits are kept. */
  function ToUnsigned(v: real): (u: nat)
    ensures u < 0x1_0000_0000
    ensures 0.0 <= v < 4294967296.0 ==> u == v.Floor
    ensures LongMin <= Truncate(v) <= LongMax ==> (Truncate(v) - u) % 0x1_0000_0000 == 0
    ensures !(LongMin <= Truncate(v) <= LongMax) ==> u == 0
  {
    var t := Truncate(v);
    if LongMin <= t <= LongMax then t % 0x1_0000_0000 else 0
  }

  /** `int(params[0])` for the non-negative value the kind line must hold, as gcc compiles
      it for x86-64: truncated into a 32-bit register, which holds INT_MIN when the result
      does not fit an `int`. */
  function KindCode(v: real): (code: int)
    requires v >= 0.0
    ensures v < 2147483648.0 ==> 0 <= code && code as real <= v < code as real + 1.0
    ensures v >= 2147483648.0 ==> code == IntMin
  {
    var t := Truncate(v);
    if t <= IntMax then t else IntMin
  }

  /** The two switches agree for every kind value an `unsigned int` holds: `ReadFile` sets
      `_NoF` from `int(params[0])` iff `main` builds a particle from `KoP = params[0]`, and
      then `_NoF` is that particle's number of facets. From 2^31 on, the facet table never
      sets `_NoF`. */
  lemma FacetTableMatchesKinds(v: real)
    requires v >= 0.0
    ensures v < 4294967296.0 ==>
              (FacetCount(KindCode(v)).Some? <==> KindOf(ToUnsigned(v)).Some?)
    ensures v < 4294967296.0 && KindOf(ToUnsigned(v)).Some? ==>
              FacetCount(KindCode(v)) == Some(FacetsOf(KindOf(ToUnsigned(v)).value))
    ensures v >= 2147483648.0 ==> FacetCount(KindCode(v)).None?
  {
    if v < 2147483648.0 {
      assert KindCode(v) == ToUnsigned(v);
    }
  }

  /** Beyond the `unsigned int` range the switches disagree: for params[0] = 2^32 + 1,
      `main` builds a bullet while `_NoF` is not set. */
  lemma KindSwitchesDisagreeBeyondUnsigned()
    ensures ToUnsigned(4294967297.0) == 1 && KindOf(ToUnsigned(4294967297.0)) == Some(Bullet)
    ensures FacetCount(KindCode(4294967297.0)).None?
  {
    assert Truncate(4294967297.0) == 4294967297;
  }

  // ---------------------------------------------------------------------------
  // What `ReadFile` does, as functions of the file

  /** How the reading ended: `return 0`, `return 1`, or a `throw`. */
  datatype ReadStatus = Done | Incomplete | Thrown(error: ConfigError)

  /** The globals `ReadFile` sets: `_NoF`, `Itr`, `Sorting` and `mask`. */
  datatype Globals = Globals(noF: nat, itr: nat, sorting: nat, mask: seq<seq<nat>>)

  /** The result of a reading: its status, how many entries of `params` it wrote, and the
      globals afterwards. */
  datatype ReadResult = ReadResult(status: ReadStatus, written: nat, globals: Globals)

  /** The chains appended by the trajectory section and how it ended. */
  datatype MaskOutcome = MaskOutcome(chains: seq<seq<nat>>, status: ReadStatus)

  /** The index at which the loop over the parameter lines stops, starting from i: the first
      missing or negative line, or NumberOfParameters when all are present and non-negative. */
  function HeaderStop(file: seq<Line>, i: nat): (k: nat)
    requires i <= NumberOfParameters
    ensures i <= k <= NumberOfParameters
    decreases NumberOfParameters - i
  {
    if i == NumberOfParameters then i
    else if i >= |file| || file[i].value < 0.0 then i
    else HeaderStop(file, i + 1)
  }

  /** The loop passes only present, non-negative lines, and stops at a missing or negative
      one unless it has read them all. */
  lemma {:induction false} HeaderStopStops(file: seq<Line>, i: nat)
    requires i <= NumberOfParameters
    ensures forall j :: i <= j < HeaderStop(file, i) ==> j < |file| && file[j].value >= 0.0
    ensures HeaderStop(file, i) < NumberOfParameters ==>
              HeaderStop(file, i) >= |file| || file[HeaderStop(file, i)].value < 0.0
    decreases NumberOfParameters - i
  {
    if i < NumberOfParameters && i < |file| && file[i].value >= 0.0 {
      HeaderStopStops(file, i + 1);
    }
  }

  /** HeaderStop is the first stopping point: any k up to which every line is present and
      non-negative, and at which the loop stops, is HeaderStop(file, 0). */
  lemma HeaderStopIsFirst(file: seq<Line>, k: nat)
    requires k <= NumberOfParameters
    requires forall j :: 0 <= j < k ==> j < |file| && file[j].value >= 0.0
    requires k < NumberOfParameters ==> k >= |file| || file[k].value < 0.0
    ensures HeaderStop(file, 0) == k
  {
  }

  /** What `MaskAppend` makes of each line of the file when `_NoF == noF`. */
  function LineChains(file: seq<Line>, noF: nat): (lines: seq<Result<seq<nat>, ConfigError>>)
    ensures |lines| == |file|
  {
    if file == [] then [] else [ParseChain(file[0].text, noF)] + LineChains(file[1..], noF)
  }

  lemma {:induction false} LineChainsAt(file: seq<Line>, noF: nat, i: nat)
    requires i < |file|
    ensures LineChains(file, noF)[i] == ParseChain(file[i].text, noF)
  {
    if i > 0 {
      LineChainsAt(file[1..], noF, i - 1);
    }
  }

  /** The loop over `count` trajectory lines from line `from`, given what `MaskAppend` makes
      of each line: it stops at a missing line (`return 1`) or a rejected one (throw). */
  function MaskLines(lines: seq<Result<seq<nat>, ConfigError>>, from: nat, count: nat): MaskOutcome
    decreases count
  {
    if count == 0 then MaskOutcome([], Done)
    else if from >= |lines| then MaskOutcome([], Incomplete)
    else match lines[from]
      case Err(e) => MaskOutcome([], Thrown(e))
      case Ok(chain) =>
        var rest := MaskLines(lines, from + 1, count - 1);
        MaskOutcome([chain] + rest.chains, rest.status)
  }

  /** `ReadFile(name, params, NumberOfParameters)` on a file, starting from the globals g. */
  function ReadSpec(file: seq<Line>, g: Globals): (r: ReadResult)
    ensures r.written <= NumberOfParameters
    ensures r.status == Done ==> r.written == NumberOfParameters
  {
    var k := HeaderStop(file, 0);
    if k < NumberOfParameters then
      if k >= |file| then ReadResult(Incomplete, k, g)
      else ReadResult(Thrown(NegativeValue), k + 1, g)
    else
      var noF := match FacetCount(KindCode(file[KindLine].value))
                 case Some(n) => n
                 case None => g.noF;
      var itr := ToUnsigned(file[ReflectionLine].value);
      if |file| <= NumberOfParameters then
        ReadResult(Done, NumberOfParameters, g.(noF := noF, itr := itr))
      else
        var sorting := ToUnsigned(file[NumberOfParameters].value);
        var m := MaskLines(LineChains(file, noF), NumberOfParameters + 1, sorting);
        ReadResult(m.status, NumberOfParameters,
                   Globals(noF, itr, sorting, g.mask + m.chains))
  }

  /** The extension of a trajectory-section outcome by chains read before it. */
  function After(chains: seq<seq<nat>>, m: MaskOutcome): MaskOutcome
  {
    MaskOutcome(chains + m.chains, m.status)
  }

  lemma AfterAfter(a: seq<seq<nat>>, b: seq<seq<nat>>, m: MaskOutcome)
    ensures After(a, After(b, m)) == After(a + b, m)
  {
    assert a + (b + m.chains) == (a + b) + m.chains;
  }

  // ---------------------------------------------------------------------------
  // Properties of the reading

  /** The trajectory section adds at most `count` chains, and exactly `count` when it
      completes; it reports only errors the lines report. */
  lemma {:induction false} MaskLinesCount(lines: seq<Result<seq<nat>, ConfigError>>, from: nat, count: nat)
    ensures |MaskLines(lines, from, count).chains| <= count
    ensures MaskLines(lines, from, count).status == Done <==> |MaskLines(lines, from, count).chains| == count
    ensures MaskLines(lines, from, count).status.Thrown? ==>
              exists i :: from <= i < |lines| && lines[i] == Err(MaskLines(lines, from, count).status.error)
    decreases count
  {
    if count > 0 && from < |lines| && lines[from].Ok? {
      MaskLinesCount(lines, from + 1, count - 1);
    }
  }

  /** `MaskAppend` never throws the negative-parameter error. */
  lemma NoLineIsNegative(file: seq<Line>, noF: nat)
    ensures forall i :: 0 <= i < |LineChains(file, noF)| ==> LineChains(file, noF)[i] != Err(NegativeValue)
  {
    forall i | 0 <= i < |LineChains(file, noF)|
      ensures LineChains(file, noF)[i] != Err(NegativeValue)
    {
      LineChainsAt(file, noF, i);
    }
  }

  /** So the trajectory section never throws it either. */
  lemma TrajectoriesNeverNegative(file: seq<Line>, noF: nat, from: nat, count: nat)
    ensures MaskLines(LineChains(file, noF), from, count).status != Thrown(NegativeValue)
  {
    var lines := LineChains(file, noF);
    NoLineIsNegative(file, noF);
    MaskLinesCount(lines, from, count);
  }

  /** When the trajectory section completes, chain j is what `MaskAppend` reads from line
      from + j; every chain is non-empty and names facets in [0, noF]. */
  lemma {:induction false} MaskLinesDone(lines: seq<Result<seq<nat>, ConfigError>>, from: nat, count: nat)
    requires MaskLines(lines, from, count).status == Done
    ensures |MaskLines(lines, from, count).chains| == count
    ensures from + count <= |lines| || count == 0
    ensures forall j :: 0 <= j < count ==> lines[from + j] == Ok(MaskLines(lines, from, count).chains[j])
    decreases count
  {
    if count > 0 {
      var rest := MaskLines(lines, from + 1, count - 1);
      MaskLinesDone(lines, from + 1, count - 1);
      forall j | 0 <= j < count
        ensures lines[from + j] == Ok(MaskLines(lines, from, count).chains[j])
      {
        if j > 0 {
          assert lines[from + j] == lines[(from + 1) + (j - 1)];
        }
      }
    }
  }

  /** A file that ends before all parameters are read makes `ReadFile` return 1 without
      setting anything, unless a negative value comes first. */
  lemma FileTooShort(file: seq<Line>, g: Globals)
    requires |file| < NumberOfParameters
    requires forall j :: 0 <= j < |file| ==> file[j].value >= 0.0
    ensures ReadSpec(file, g) == ReadResult(Incomplete, |file|, g)
  {
    HeaderStopIsFirst(file, |file|);
  }

  /** A negative value among the parameters throws, after writing it into `params`; the
      globals are not touched. */
  lemma NegativeParameterThrows(file: seq<Line>, g: Globals, i: nat)
    requires i < NumberOfParameters && i < |file|
    requires file[i].value < 0.0
    requires forall j :: 0 <= j < i ==> file[j].value >= 0.0
    ensures ReadSpec(file, g) == ReadResult(Thrown(NegativeValue), i + 1, g)
  {
    HeaderStopIsFirst(file, i);
  }

  /** `ReadFile` throws "All values must be positive" exactly when some parameter line is
      negative with all lines before it present. */
  lemma NegativeValueIff(file: seq<Line>, g: Globals)
    ensures ReadSpec(file, g).status == Thrown(NegativeValue) <==>
              exists i :: 0 <= i < NumberOfParameters && i < |file| && file[i].value < 0.0
    ensures ReadSpec(file, g).status == Thrown(NegativeValue) ==> ReadSpec(file, g).globals == g
  {
    var k := HeaderStop(file, 0);
    HeaderStopStops(file, 0);
    if k == NumberOfParameters && |file| > NumberOfParameters {
      var noF := match FacetCount(KindCode(file[KindLine].value))
                 case Some(n) => n
                 case None => g.noF;
      TrajectoriesNeverNegative(file, noF, NumberOfParameters + 1, ToUnsigned(file[NumberOfParameters].value));
    }
    if exists i :: 0 <= i < NumberOfParameters && i < |file| && file[i].value < 0.0 {
      var i :| 0 <= i < NumberOfParameters && i < |file| && file[i].value < 0.0;
      assert k <= i;
    }
  }

  /** A completed reading has read every parameter (all non-negative); if a Sorting line is
      present, `mask` has grown by exactly Sorting chains, the j-th read from the line after
      it by `MaskAppend`; `_NoF` follows the facet table and `Itr` is the reflection line. */
  lemma DoneMeansAllRead(file: seq<Line>, g: Globals)
    requires ReadSpec(file, g).status == Done
    ensures |file| >= NumberOfParameters
    ensures forall j :: 0 <= j < NumberOfParameters ==> file[j].value >= 0.0
    ensures var r := ReadSpec(file, g).globals;
            var code := KindCode(file[KindLine].value);
            r.noF == (if FacetCount(code).Some? then FacetCount(code).value else g.noF) &&
            r.itr == ToUnsigned(file[ReflectionLine].value)
    ensures |file| == NumberOfParameters ==>
              ReadSpec(file, g).globals.sorting == g.sorting &&
              ReadSpec(file, g).globals.mask == g.mask
    ensures |file| > NumberOfParameters ==>
              var r := ReadSpec(file, g).globals;
              r.sorting == ToUnsigned(file[NumberOfParameters].value) &&
              |file| >= NumberOfParameters + 1 + r.sorting &&
              |r.mask| == |g.mask| + r.sorting &&
              r.mask[..|g.mask|] == g.mask &&
              forall j :: NumberOfParameters + 1 <= j < NumberOfParameters + 1 + r.sorting ==>
                ParseChain(file[j].text, r.noF) == Ok(r.mask[|g.mask| + j - NumberOfParameters - 1])
  {
    var k := HeaderStop(file, 0);
    HeaderStopStops(file, 0);
    assert k == NumberOfParameters;
    if |file| > NumberOfParameters {
      var r := ReadSpec(file, g).globals;
      var lines := LineChains(file, r.noF);
      var m := MaskLines(lines, NumberOfParameters + 1, r.sorting);
      MaskLinesDone(lines, NumberOfParameters + 1, r.sorting);
      assert r.mask == g.mask + m.chains;
      forall j | NumberOfParameters + 1 <= j < NumberOfParameters + 1 + r.sorting
        ensures ParseChain(file[j].text, r.noF) == Ok(r.mask[|g.mask| + j - NumberOfParameters - 1])
      {
        var n := j - NumberOfParameters - 1;
        assert r.mask[|g.mask| + n] == m.chains[n];
        assert lines[j] == lines[NumberOfParameters + 1 + n];
        LineChainsAt(file, r.noF, j);
      }
    }
  }

  /** The trajectory lines from `from` hold the chains, each written as its facet indices. */
  predicate RenderedAt(file: seq<Line>, from: nat, chains: seq<seq<nat>>, noF: nat)
  {
    from + |chains| <= |file| &&
    forall j :: 0 <= j < |chains| ==>
      chains[j] != [] && file[from + j].text == Render(chains[j]) &&
      forall i :: 0 <= i < |chains[j]| ==> chains[j][i] <= noF
  }

  /** A trajectory section written line by line from valid chains is read back as those
      chains. */
  lemma MaskLinesOfRendered(file: seq<Line>, from: nat, chains: seq<seq<nat>>, noF: nat)
    requires noF <= LongMax && RenderedAt(file, from, chains, noF)
    ensures MaskLines(LineChains(file, noF), from, |chains|) == MaskOutcome(chains, Done)
  {
    var lines := LineChains(file, noF);
    forall k | from <= k < from + |chains|
      ensures lines[k] == Ok(chains[k - from])
    {
      RenderedLineReads(file, from, chains, noF, k - from);
    }
    MaskLinesAllOk(lines, from, chains, 0);
  }

  /** When the lines from `from` on are the chains, accepted, the trajectory section reads
      them all, from any of them on. */
  lemma {:induction false} MaskLinesAllOk(lines: seq<Result<seq<nat>, ConfigError>>, from: nat,
                                          chains: seq<seq<nat>>, n: nat)
    requires n <= |chains|
    requires from + |chains| <= |lines|
    requires forall k :: from <= k < from + |chains| ==> lines[k] == Ok(chains[k - from])
    ensures MaskLines(lines, from + n, |chains| - n) == MaskOutcome(chains[n..], Done)
    decreases |chains| - n
  {
    if n < |chains| {
      assert lines[from + n] == Ok(chains[n]);
      MaskLinesAllOk(lines, from, chains, n + 1);
      assert [chains[n]] + chains[n + 1..] == chains[n..];
    }
  }

  /** Line from + n of a rendered section is read back as chain n. */
  lemma RenderedLineReads(file: seq<Line>, from: nat, chains: seq<seq<nat>>, noF: nat, n: nat)
    requires noF <= LongMax && n < |chains| && RenderedAt(file, from, chains, noF)
    ensures from + n < |file| && LineChains(file, noF)[from + n] == Ok(chains[n])
  {
    RenderRoundTrip(chains[n], noF);
    LineChainsAt(file, noF, from + n);
  }

  /** A well-formed parameter file: 13 non-negative values, a kind the facet table knows, a
      Sorting line counting the trajectory lines, and each trajectory written as its facet
      indices. Reading it sets `_NoF` from the table and appends those trajectories to `mask`. */
  lemma WellFormedFileReads(file: seq<Line>, g: Globals, chains: seq<seq<nat>>)
    requires forall j :: 0 <= j < NumberOfParameters ==> j < |file| && file[j].value >= 0.0
    requires |file| > NumberOfParameters
    requires FacetCount(KindCode(file[KindLine].value)).Some?
    requires file[NumberOfParameters].value == |chains| as real && |chains| < 0x1_0000_0000
    requires RenderedAt(file, NumberOfParameters + 1, chains, FacetCount(KindCode(file[KindLine].value)).value)
    ensures ReadSpec(file, g) ==
              ReadResult(Done, NumberOfParameters,
                         Globals(FacetCount(KindCode(file[KindLine].value)).value,
                                 ToUnsigned(file[ReflectionLine].value), |chains|, g.mask + chains))
  {
    var noF := FacetCount(KindCode(file[KindLine].value)).value;
    assert ToUnsigned(file[NumberOfParameters].value) == |chains|;
    MaskLinesOfRendered(file, NumberOfParameters + 1, chains, noF);
  }

  // ---------------------------------------------------------------------------
  // The globals and the reader

  /** The global configuration the parameter file fills in: `_NoF`, `Itr`, `Sorting` and
      `mask`, zero-initialised as globals are. */
  class Settings {
    var noF: nat
    var itr: nat
    var sorting: nat
    var mask: seq<seq<nat>>

    function State(): Globals
      reads this
    {
      Globals(noF, itr, sorting, mask)
    }

    constructor ()
      ensures State() == Globals(0, 0, 0, [])
    {
      noF := 0;
      itr := 0;
      sorting := 0;
      mask := [];
    }

    /** `MaskAppend(s, n)`: reads one trajectory line and appends its chain to `mask`, or
        throws and leaves `mask` as it was. */
    method MaskAppend(s: string) returns (outcome: Outcome<ConfigError>)
      modifies this
      ensures noF == old(noF) && itr == old(itr) && sorting == old(sorting)
      ensures ParseChain(s, noF).Ok? ==> outcome == Pass && mask == old(mask) + [ParseChain(s, noF).value]
      ensures ParseChain(s, noF).Err? ==> outcome == Fail(ParseChain(s, noF).error) && mask == old(mask)
    {
      var r := ReadChain(s, noF);
      if r.Err? {
        return Fail(r.error);
      }
      mask := mask + [r.value];
      return Pass;
    }

    /** `MaskAppend` on line `line` of the file, stated through what it makes of each line. */
    method AppendLine(file: seq<Line>, line: nat, ghost lines: seq<Result<seq<nat>, ConfigError>>)
      returns (outcome: Outcome<ConfigError>)
      requires line < |file| && lines == LineChains(file, noF)
      modifies this
      ensures noF == old(noF) && itr == old(itr) && sorting == old(sorting)
      ensures lines[line].Ok? ==> outcome == Pass && mask == old(mask) + [lines[line].value]
      ensures lines[line].Err? ==> outcome == Fail(lines[line].error) && mask == old(mask)
    {
      LineChainsAt(file, noF, line);
      outcome := MaskAppend(file[line].text);
    }

    /** The counted loop of `ReadFile` over `count` trajectory lines from line `from`: each
        goes to `MaskAppend`; a missing line returns 1 and a rejected one throws. */
    method ReadTrajectories(file: seq<Line>, from: nat, count: nat) returns (status: ReadStatus)
      modifies this
      ensures noF == old(noF) && itr == old(itr) && sorting == old(sorting)
      ensures status == MaskLines(LineChains(file, noF), from, count).status
      ensures mask == old(mask) + MaskLines(LineChains(file, noF), from, count).chains
    {
      ghost var lines := LineChains(file, noF);
      ghost var whole := MaskLines(lines, from, count);
      ghost var added: seq<seq<nat>> := [];
      ghost var rest := whole;
      assert whole.chains == added + rest.chains;
      var j := 0;
      assert from + j == from && count - j == count;
      while j < count
        invariant 0 <= j <= count
        invariant noF == old(noF) && itr == old(itr) && sorting == old(sorting)
        invariant mask == old(mask) + added
        invariant rest == MaskLines(lines, from + j, count - j)
        invariant whole == After(added, rest)
      {
        var line := from + j;
        if line >= |file| {
          assert added + [] == added;
          return Incomplete;
        }
        var outcome := AppendLine(file, line, lines);
        if outcome.Fail? {
          assert added + [] == added;
          return Thrown(outcome.error);
        }
        ghost var next := MaskLines(lines, from + (j + 1), count - (j + 1));
        AfterAfter(added, [lines[line].value], next);
        added := added + [lines[line].value];
        rest := next;
        j := j + 1;
      }
      assert added + [] == added;
      return Done;
    }

    /** `ReadFile(name, params, NumberOfParameters)` on the pieces of the file: fills
        `params` from the parameter lines, sets `_NoF` and `Itr`, then reads the Sorting line
        and the trajectory lines if the file goes on. */
    method ReadFile(file: seq<Line>, params: array<real>) returns (status: ReadStatus)
      requires params.Length == NumberOfParameters
      modifies this, params
      ensures var r := ReadSpec(file, old(State()));
              status == r.status && State() == r.globals &&
              (forall j :: 0 <= j < r.written ==> params[j] == file[j].value) &&
              (forall j :: r.written <= j < NumberOfParameters ==> params[j] == old(params[j]))
    {
      var k := ReadParameters(file, params);
      if k < NumberOfParameters {
        return if k >= |file| then Incomplete else Thrown(NegativeValue);
      }
      var facets := FacetCount(KindCode(params[KindLine]));
      if facets.Some? {
        noF := facets.value;
      }
      itr := ToUnsigned(params[ReflectionLine]);
      if |file| > NumberOfParameters {
        sorting := ToUnsigned(file[NumberOfParameters].value);
        status := ReadTrajectories(file, NumberOfParameters + 1, sorting);
        return;
      }
      return Done;
    }
  }

  /** The for-loop of `ReadFile` over the parameter lines: copies each value into `params`,
      stopping at a missing line and throwing at a negative value. Returns where it stopped. */
  method ReadParameters(file: seq<Line>, params: array<real>) returns (k: nat)
    requires params.Length == NumberOfParameters
    modifies params
    ensures k == HeaderStop(file, 0)
    ensures forall j :: 0 <= j < NumberOfParameters ==>
              params[j] == if j < k || (j == k && k < |file|) then file[j].value else old(params[j])
  {
    var i := 0;
    while i < NumberOfParameters
      invariant 0 <= i <= NumberOfParameters && i <= |file|
      invariant HeaderStop(file, i) == HeaderStop(file, 0)
      invariant forall j :: 0 <= j < i ==> params[j] == file[j].value
      invariant forall j :: i <= j < NumberOfParameters ==> params[j] == old(params[j])
    {
      if i >= |file| {
        return i;
      }
      params[i] := file[i].value;
      if params[i] < 0.0 {
        return i;
      }
      i := i + 1;
    }
    return i;
  }
}
