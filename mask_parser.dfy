/** The reading of one trajectory line of the parameter file, `MaskAppend`
    (RandomOrientation/main.cpp:395-415). The line is cut into integers the way repeated
    `strtol(buf, &end, 10)` calls cut it, stopping at the first position where no integer
    can be read. Every value must lie in [0, _NoF] (the upper bound included) and at least
    one must be read; otherwise the chain is rejected.

    `strtol` is modelled for a 64-bit `long`: leading white space, an optional sign and a
    run of decimal digits, with out-of-range values clamped to LONG_MIN/LONG_MAX. The
    `char*` variables `buf` and `end` are positions in the line. */
module MaskParser {
  import opened Outcomes

  const LongMin: int := -0x8000_0000_0000_0000
  const LongMax: int := 0x7FFF_FFFF_FFFF_FFFF

  /** The range of a 32-bit `int`. */
  const IntMin: int := -0x8000_0000
  const IntMax: int := 0x7FFF_FFFF

  /** `isspace` in the C locale: space, \t, \n, \v, \f and \r. */
  predicate IsSpace(c: char)
  {
    c == ' ' || '\t' <= c <= '\r'
  }

  predicate IsDigit(c: char)
  {
    '0' <= c <= '9'
  }

  predicate AllDigits(s: string)
  {
    forall i :: 0 <= i < |s| ==> IsDigit(s[i])
  }

  function DigitValue(c: char): int
  {
    c as int - '0' as int
  }

  /** The digit loop of `strtol`: reads the decimal digits of s from position i on, adding
      each to the value acc read so far; gives the position where it stopped and the value. */
  function ScanDigits(s: string, i: nat, acc: int): (r: (nat, int))
    requires i <= |s|
    ensures i <= r.0 <= |s|
    decreases |s| - i
  {
    if i < |s| && IsDigit(s[i]) then ScanDigits(s, i + 1, 10 * acc + DigitValue(s[i])) else (i, acc)
  }

  /** The value the digits d, most significant first, add up to after the value acc. */
  function Accumulate(acc: int, d: string): int
    decreases |d|
  {
    if d == [] then acc else Accumulate(10 * acc + DigitValue(d[0]), d[1..])
  }

  /** What one `strtol` call reads: the value and the position `end` where it stopped. */
  datatype Token = Token(value: int, end: nat)

  /** `strtol(s + i, &end, 10)`: white space is skipped, then an optional sign and the
      digits are read. None when no digit follows (then `end` is left at i). */
  function Strtol(s: string, i: nat): (t: Option<Token>)
    requires i <= |s|
    ensures t.Some? ==> i < t.value.end <= |s| && LongMin <= t.value.value <= LongMax
    decreases |s| - i
  {
    if i < |s| && IsSpace(s[i]) then Strtol(s, i + 1)
    else
      var signed := i < |s| && (s[i] == '+' || s[i] == '-');
      var start := if signed then i + 1 else i;
      var digits := ScanDigits(s, start, 0);
      if digits.0 == start then None
      else
        var v: int := if signed && s[i] == '-' then -digits.1 else digits.1;
        Some(Token(ClampToLong(v), digits.0))
  }

  /** What `strtol` returns for a value a `long` cannot hold: LONG_MIN or LONG_MAX. */
  function ClampToLong(v: int): int
  {
    if v < LongMin then LongMin else if v > LongMax then LongMax else v
  }

  /** The values the do-while loop of `MaskAppend` reads from position i on, in order, up to
      the first position where `strtol` converts nothing. */
  function TokensFrom(s: string, i: nat): seq<int>
    requires i <= |s|
    decreases |s| - i
  {
    match Strtol(s, i)
    case None => []
    case Some(t) => [t.value] + TokensFrom(s, t.end)
  }

  /** Each call consumes at least one character, so at most |s| - i values are read, and
      every one lies in the range of a `long`. */
  lemma {:induction false} TokensFromInRange(s: string, i: nat)
    requires i <= |s|
    ensures |TokensFrom(s, i)| <= |s| - i
    ensures forall j :: 0 <= j < |TokensFrom(s, i)| ==> LongMin <= TokensFrom(s, i)[j] <= LongMax
    decreases |s| - i
  {
    var t := Strtol(s, i);
    if t.Some? {
      TokensFromInRange(s, t.value.end);
    }
  }

  /** The values read from a whole line. */
  function Tokens(s: string): seq<int>
  {
    TokensFrom(s, 0)
  }

  /** The range and emptiness checks of `MaskAppend` on the values read. The loop throws at
      the first value outside [0, noF]; whichever value that is, the outcome is the same. */
  function CheckChain(values: seq<int>, noF: nat): (r: Result<seq<nat>, ConfigError>)
    ensures r == Err(FacetOutOfRange) <==>
              exists i :: 0 <= i < |values| && (values[i] > noF || values[i] < 0)
    ensures r == Err(NoFacets) <==> values == []
    ensures r.Ok? <==> values != [] && forall i :: 0 <= i < |values| ==> 0 <= values[i] <= noF
    ensures r.Ok? ==> r.value == values
  {
    if exists i :: 0 <= i < |values| && (values[i] > noF || values[i] < 0) then Err(FacetOutOfRange)
    else if values == [] then Err(NoFacets)
    else Ok(values)
  }

  /** The chain `MaskAppend` appends for line s, or the error it throws, when the range check
      is made on the value `strtol` returned. This is the check the code evidently intends;
      see ParseChainAsWritten for the code as it stands. */
  function ParseChain(s: string, noF: nat): (r: Result<seq<nat>, ConfigError>)
  {
    CheckChain(Tokens(s), noF)
  }

  /** `int facet_numb = strtol(...)`: the 64-bit long narrowed to a 32-bit int, which
      keeps the low 32 bits in two's complement. */
  function NarrowToInt(v: int): (r: int)
    ensures IntMin <= r <= IntMax
    ensures (v - r) % (IntMax - IntMin + 1) == 0
  {
    var m := v % (IntMax - IntMin + 1);
    if m > IntMax then m + IntMin - IntMax - 1 else m
  }

  /** `MaskAppend` exactly as written: the range check is made on the narrowed int. */
  function ParseChainAsWritten(s: string, noF: nat): (r: Result<seq<nat>, ConfigError>)
  {
    var ts := Tokens(s);
    CheckChain(seq(|ts|, i requires 0 <= i < |ts| => NarrowToInt(ts[i])), noF)
  }

  /** The do-while loop of `MaskAppend` that builds the chain `ch`, with the range check on
      the value `strtol` returned. */
  method ReadChain(s: string, noF: nat) returns (r: Result<seq<nat>, ConfigError>)
    ensures r == ParseChain(s, noF)
  {
    var ch: seq<nat> := [];
    var pos := 0;
    while true
      invariant 0 <= pos <= |s|
      invariant Tokens(s) == ch + TokensFrom(s, pos)
      invariant forall i :: 0 <= i < |ch| ==> ch[i] <= noF
      decreases |s| - pos
    {
      var t := Strtol(s, pos);
      if t.None? {
        break;
      }
      var facet := t.value.value;
      ShiftOne(Tokens(s), ch, facet, TokensFrom(s, pos), TokensFrom(s, t.value.end));
      if facet > noF || facet < 0 {
        assert ParseChain(s, noF) == Err(FacetOutOfRange) by {
          assert Tokens(s)[|ch|] == facet;
        }
        return Err(FacetOutOfRange);
      }
      ch := ch + [facet];
      pos := t.value.end;
    }
    assert Tokens(s) == ch;
    assert ParseChain(s, noF) == CheckChain(ch, noF);
    if ch == [] {
      return Err(NoFacets);
    }
    return Ok(ch);
  }

  /** Moving the next value read from the unread part to the read part. */
  lemma ShiftOne(all: seq<int>, read: seq<int>, v: int, unread: seq<int>, after: seq<int>)
    requires all == read + unread && unread == [v] + after
    ensures all == (read + [v]) + after && all[|read|] == v
  {
  }

  // ---------------------------------------------------------------------------
  // Writing a chain as a line, and reading it back

  /** The decimal digits of n, without leading zeros. */
  function Decimal(n: nat): (d: string)
    ensures |d| > 0 && AllDigits(d)
  {
    if n < 10 then [('0' as int + n) as char]
    else Decimal(n / 10) + [('0' as int + n % 10) as char]
  }

  /** A trajectory line as a user writes it: the facet indices in decimal, separated by
      single spaces. */
  function Render(chain: seq<nat>): string
  {
    Joined(Spelled(chain))
  }

  /** The decimal spelling of each index. */
  function Spelled(chain: seq<nat>): (ws: seq<string>)
    ensures |ws| == |chain|
  {
    if chain == [] then [] else [Decimal(chain[0])] + Spelled(chain[1..])
  }

  /** Words separated by single spaces. */
  function Joined(ws: seq<string>): string
  {
    if ws == [] then "" else ws[0] + Separated(ws[1..])
  }

  /** Each word preceded by one space. */
  function Separated(ws: seq<string>): string
  {
    if ws == [] then "" else " " + ws[0] + Separated(ws[1..])
  }

  /** A word of decimal digits whose value a `long` holds. */
  predicate Numeral(w: string)
  {
    w != [] && AllDigits(w) && 0 <= Accumulate(0, w) <= LongMax
  }

  predicate AllNumerals(ws: seq<string>)
  {
    ws == [] || (Numeral(ws[0]) && AllNumerals(ws[1..]))
  }

  /** The values of the words. */
  function Values(ws: seq<string>): (vs: seq<int>)
    ensures |vs| == |ws|
  {
    if ws == [] then [] else [Accumulate(0, ws[0])] + Values(ws[1..])
  }

  lemma {:induction false} AccumulateAppend(acc: int, d: string, c: char)
    ensures Accumulate(acc, d + [c]) == 10 * Accumulate(acc, d) + DigitValue(c)
    decreases |d|
  {
    if d == [] {
      assert d + [c] == [c] && [c][1..] == [];
    } else {
      assert (d + [c])[0] == d[0] && (d + [c])[1..] == d[1..] + [c];
      AccumulateAppend(10 * acc + DigitValue(d[0]), d[1..], c);
    }
  }

  /** The digits of n add up to n. */
  lemma {:induction false} AccumulateDecimal(n: nat)
    ensures Accumulate(0, Decimal(n)) == n
  {
    if n < 10 {
      assert Decimal(n)[1..] == [];
    } else {
      AccumulateDecimal(n / 10);
      AccumulateAppend(0, Decimal(n / 10), ('0' as int + n % 10) as char);
    }
  }

  /** The digit loop reads a whole run of digits d that ends the line or is followed by
      something other than a digit. */
  lemma {:induction false} ScanDigitsOfRun(s: string, i: nat, d: string, acc: int)
    requires i + |d| <= |s| && s[i..i + |d|] == d && AllDigits(d)
    requires i + |d| == |s| || !IsDigit(s[i + |d|])
    ensures ScanDigits(s, i, acc) == (i + |d|, Accumulate(acc, d))
    decreases |d|
  {
    if d != [] {
      assert s[i] == d[0];
      assert s[i + 1..i + 1 + |d[1..]|] == d[1..];
      ScanDigitsOfRun(s, i + 1, d[1..], 10 * acc + DigitValue(d[0]));
    }
  }

  /** `strtol` reads back a numeral w written after k white-space characters from position
      i, when what follows it is the end of the line or a space. */
  lemma StrtolOfNumeral(s: string, i: nat, k: nat, w: string)
    requires Numeral(w) && i + k + |w| <= |s|
    requires forall j :: i <= j < i + k ==> IsSpace(s[j])
    requires s[i + k..i + k + |w|] == w
    requires i + k + |w| == |s| || s[i + k + |w|] == ' '
    ensures Strtol(s, i) == Some(Token(Accumulate(0, w), i + k + |w|))
  {
    assert s[i + k..i + k] == "";
    StrtolOfRun(s, i, k, "", w);
  }

  /** `strtol` after k white-space characters, an optional sign and a maximal run of
      digits d: the value of the digits, negated after '-', clamped to the range of a
      `long`, and `end` just after the digits. */
  lemma {:induction false} StrtolOfRun(s: string, i: nat, k: nat, sign: string, d: string)
    requires sign == "" || sign == "+" || sign == "-"
    requires d != [] && AllDigits(d) && i + k + |sign| + |d| <= |s|
    requires forall j :: i <= j < i + k ==> IsSpace(s[j])
    requires s[i + k..i + k + |sign|] == sign
    requires s[i + k + |sign|..i + k + |sign| + |d|] == d
    requires i + k + |sign| + |d| == |s| || !IsDigit(s[i + k + |sign| + |d|])
    ensures Strtol(s, i) ==
              Some(Token(ClampToLong(if sign == "-" then -Accumulate(0, d) else Accumulate(0, d)),
                         i + k + |sign| + |d|))
    decreases k
  {
    if k == 0 {
      if sign == "" {
        assert s[i] == d[0];
      } else {
        assert s[i] == sign[0];
      }
      ScanDigitsOfRun(s, i + |sign|, d, 0);
    } else {
      assert IsSpace(s[i]);
      StrtolOfRun(s, i + 1, k - 1, sign, d);
    }
  }

  /** `strtol` converts nothing exactly when, after the white space, there is neither a
      digit nor a sign followed by a digit. */
  lemma {:induction false} StrtolNone(s: string, i: nat, k: nat)
    requires i + k <= |s|
    requires forall j :: i <= j < i + k ==> IsSpace(s[j])
    requires i + k == |s| || !IsSpace(s[i + k])
    ensures Strtol(s, i).None? <==>
              !(i + k < |s| && IsDigit(s[i + k])) &&
              !(i + k + 1 < |s| && (s[i + k] == '+' || s[i + k] == '-') && IsDigit(s[i + k + 1]))
    decreases k
  {
    if k > 0 {
      assert IsSpace(s[i]);
      StrtolNone(s, i + 1, k - 1);
    }
  }

  /** A line starting with a negative index is rejected as out of range, whatever follows. */
  lemma NegativeIndexRejected(k: nat, rest: string, noF: nat)
    requires k >= 1 && (rest == [] || !IsDigit(rest[0]))
    ensures ParseChain("-" + Decimal(k) + rest, noF) == Err(FacetOutOfRange)
  {
    var d := Decimal(k);
    var s := "-" + d + rest;
    assert s[0..1] == "-" && s[1..1 + |d|] == d;
    assert 1 + |d| < |s| ==> s[1 + |d|] == rest[0];
    StrtolOfRun(s, 0, 0, "-", d);
    AccumulateDecimal(k);
    assert Tokens(s)[0] == ClampToLong(-(k as int)) < 0;
  }

  /** An index beyond LONG_MAX is read as LONG_MAX, so a line starting with one is rejected
      unless _NoF is LONG_MAX itself. */
  lemma HugeIndexClamped(k: nat, rest: string, noF: nat)
    requires k > LongMax && noF < LongMax && (rest == [] || !IsDigit(rest[0]))
    ensures Strtol(Decimal(k) + rest, 0) == Some(Token(LongMax, |Decimal(k)|))
    ensures ParseChain(Decimal(k) + rest, noF) == Err(FacetOutOfRange)
  {
    var d := Decimal(k);
    var s := d + rest;
    assert s[0..|d|] == d && s[0..0] == "";
    assert |d| < |s| ==> s[|d|] == rest[0];
    StrtolOfRun(s, 0, 0, "", d);
    AccumulateDecimal(k);
    assert Tokens(s)[0] == LongMax;
  }

  /** Reading stops at the first word that is not a number: "3 x 99" gives only 3. */
  lemma TokensStopAtWord()
    ensures Tokens("3 x 99") == [3]
    ensures ParseChain("3 x 99", 8) == Ok([3])
  {
    var s := "3 x 99";
    assert s[0..0] == "" && s[0..1] == "3" && s[1] == ' ' && s[2] == 'x';
    StrtolOfRun(s, 0, 0, "", "3");
    StrtolNone(s, 1, 1);
  }

  /** Where the separated words start at i: a space, the first word, then the rest. */
  lemma SeparatedAt(s: string, i: nat, ws: seq<string>)
    requires i <= |s| && s[i..] == Separated(ws) && ws != []
    ensures i + 1 + |ws[0]| <= |s|
    ensures s[i] == ' ' && s[i + 1..i + 1 + |ws[0]|] == ws[0]
    ensures s[i + 1 + |ws[0]|..] == Separated(ws[1..])
  {
    var e := i + 1 + |ws[0]|;
    assert s[i..] == " " + ws[0] + Separated(ws[1..]);
    assert s[i] == s[i..][0];
    assert s[i + 1..e] == s[i..][1..1 + |ws[0]|];
    assert s[e..] == s[i..][1 + |ws[0]|..];
  }

  /** Separated words start with a space, if with anything. */
  lemma SeparatedStart(ws: seq<string>)
    ensures Separated(ws) == [] || Separated(ws)[0] == ' '
  {
  }

  /** Reading from position i, where numerals follow each behind one space, gives their
      values back. */
  lemma {:induction false} TokensOfSeparated(s: string, i: nat, ws: seq<string>)
    requires i <= |s| && s[i..] == Separated(ws) && AllNumerals(ws)
    ensures TokensFrom(s, i) == Values(ws)
    decreases |ws|
  {
    if ws == [] {
      NothingAtEnd(s, i);
    } else {
      var e := i + 1 + |ws[0]|;
      TokensOfSeparatedStep(s, i, ws);
      TokensOfSeparated(s, e, ws[1..]);
      ValuesStep(TokensFrom(s, i), TokensFrom(s, e), ws);
    }
  }

  lemma ValuesStep(all: seq<int>, rest: seq<int>, ws: seq<string>)
    requires ws != [] && all == [Accumulate(0, ws[0])] + rest && rest == Values(ws[1..])
    ensures all == Values(ws)
  {
  }

  /** Nothing is read at the end of the line. */
  lemma NothingAtEnd(s: string, i: nat)
    requires i <= |s| && s[i..] == []
    ensures TokensFrom(s, i) == []
  {
    assert i == |s| && Strtol(s, i) == None;
  }

  /** The first numeral after i is read, and reading goes on where the rest starts. */
  lemma TokensOfSeparatedStep(s: string, i: nat, ws: seq<string>)
    requires i <= |s| && s[i..] == Separated(ws) && ws != [] && Numeral(ws[0])
    ensures i + 1 + |ws[0]| <= |s| && s[i + 1 + |ws[0]|..] == Separated(ws[1..])
    ensures TokensFrom(s, i) == [Accumulate(0, ws[0])] + TokensFrom(s, i + 1 + |ws[0]|)
  {
    var e := i + 1 + |ws[0]|;
    SeparatedAt(s, i, ws);
    SeparatedStart(ws[1..]);
    assert e == |s| || s[e] == s[e..][0];
    StrtolOfNumeral(s, i, 1, ws[0]);
  }

  /** Reading numerals separated by single spaces gives their values back. */
  lemma TokensOfJoined(ws: seq<string>)
    requires AllNumerals(ws)
    ensures Tokens(Joined(ws)) == Values(ws)
  {
    var s := Joined(ws);
    if ws == [] {
      assert Strtol(s, 0) == None;
    } else {
      var w := ws[0];
      assert s[0..|w|] == w && s[|w|..] == Separated(ws[1..]) by {
        assert s == w + Separated(ws[1..]);
      }
      assert Tokens(s) == [Accumulate(0, w)] + TokensFrom(s, |w|) by {
        SeparatedStart(ws[1..]);
        assert |w| == |s| || s[|w|] == s[|w|..][0];
        StrtolOfNumeral(s, 0, 0, w);
      }
      TokensOfSeparated(s, |w|, ws[1..]);
    }
  }

  /** Reading a rendered line gives back the indices written. */
  lemma TokensOfRender(chain: seq<nat>)
    requires forall j :: 0 <= j < |chain| ==> chain[j] <= LongMax
    ensures Tokens(Render(chain)) == chain
  {
    SpelledValues(chain);
    TokensOfJoined(Spelled(chain));
  }

  /** The spelled indices are numerals whose values are the indices. */
  lemma {:induction false} SpelledValues(chain: seq<nat>)
    requires forall j :: 0 <= j < |chain| ==> chain[j] <= LongMax
    ensures AllNumerals(Spelled(chain)) && Values(Spelled(chain)) == chain
  {
    if chain != [] {
      var ws := Spelled(chain);
      assert ws[0] == Decimal(chain[0]) && ws[1..] == Spelled(chain[1..]);
      AccumulateDecimal(chain[0]);
      SpelledValues(chain[1..]);
      assert chain == [chain[0]] + chain[1..];
    }
  }

  /** A non-empty chain of valid facet indices, written as a line, is read back as exactly
      that chain. */
  lemma RenderRoundTrip(chain: seq<nat>, noF: nat)
    requires chain != [] && noF <= LongMax
    requires forall i :: 0 <= i < |chain| ==> chain[i] <= noF
    ensures ParseChain(Render(chain), noF) == Ok(chain)
  {
    TokensOfRender(chain);
  }

  /** Any value read and kept lies in [0, noF], a kept chain is never empty, and a line is
      rejected exactly when it holds no integer or one outside [0, noF]. */
  lemma ParsedChainIsValid(s: string, noF: nat)
    ensures ParseChain(s, noF).Ok? ==>
              ParseChain(s, noF).value == Tokens(s) && ParseChain(s, noF).value != [] &&
              forall i :: 0 <= i < |ParseChain(s, noF).value| ==> ParseChain(s, noF).value[i] <= noF
    ensures ParseChain(s, noF).Err? <==>
              (Tokens(s) == [] || exists i :: 0 <= i < |Tokens(s)| && (Tokens(s)[i] > noF || Tokens(s)[i] < 0))
  {
  }

  /** As written, the line "4294967297" names facet 1: strtol returns 2^32 + 1, the
      assignment to an int drops the high bits, and the range check sees 1. With the check
      made on the value strtol returned, the line is rejected. */
  lemma WrappedIndexPassesCheck()
    ensures Render([4294967297]) == "4294967297"
    ensures ParseChainAsWritten("4294967297", 8) == Ok([1])
    ensures ParseChain("4294967297", 8) == Err(FacetOutOfRange)
  {
    DecimalOfWrappingIndex();
    TokensOfRender([4294967297]);
    NarrowingWrappingIndex();
    var ts := Tokens("4294967297");
    assert seq(|ts|, i requires 0 <= i < |ts| => NarrowToInt(ts[i])) == [1];
  }

  /** As written, an index beyond LONG_MAX is not let through by wrapping: `strtol` clamps it
      to LONG_MAX, which narrows to -1, and the line is rejected whatever its residue. */
  lemma HugeIndexRejectedAsWritten(k: nat, rest: string, noF: nat)
    requires k > LongMax && (rest == [] || !IsDigit(rest[0]))
    ensures ParseChainAsWritten(Decimal(k) + rest, noF) == Err(FacetOutOfRange)
  {
    var d := Decimal(k);
    var s := d + rest;
    assert s[0..|d|] == d && s[0..0] == "";
    assert |d| < |s| ==> s[|d|] == rest[0];
    StrtolOfRun(s, 0, 0, "", d);
    AccumulateDecimal(k);
    var ts := Tokens(s);
    assert ts[0] == LongMax;
    assert NarrowToInt(LongMax) == -1;
    var narrowed := seq(|ts|, i requires 0 <= i < |ts| => NarrowToInt(ts[i]));
    assert narrowed[0] < 0;
  }

  /** As written, an index at or below LONG_MIN is accepted as facet 0: `strtol` clamps it to
      LONG_MIN, whose low 32 bits are all zero. The corrected reading rejects it. */
  lemma MostNegativeIndexPassesCheck(k: nat, noF: nat)
    requires k > LongMax
    ensures ParseChainAsWritten("-" + Decimal(k), noF) == Ok([0])
    ensures ParseChain("-" + Decimal(k), noF) == Err(FacetOutOfRange)
  {
    var d := Decimal(k);
    var s := "-" + d;
    assert s[0..1] == "-" && s[1..1 + |d|] == d;
    StrtolOfRun(s, 0, 0, "-", d);
    AccumulateDecimal(k);
    assert Strtol(s, 0) == Some(Token(LongMin, |s|));
    assert Strtol(s, |s|) == None;
    assert TokensFrom(s, |s|) == [];
    assert Tokens(s) == [LongMin] + TokensFrom(s, |s|);
    assert Tokens(s)[0] < 0;
    assert NarrowToInt(LongMin) == 0;
    var ts := Tokens(s);
    assert seq(|ts|, i requires 0 <= i < |ts| => NarrowToInt(ts[i])) == [0];
  }

  lemma DecimalOfWrappingIndex()
    ensures Render([4294967297]) == "4294967297"
  {
    calc {
      Decimal(4294967297);
      { DecimalStep(429496729, 7); }
      Decimal(429496729) + "7";
      { DecimalStep(42949672, 9); }
      Decimal(42949672) + "97";
      { DecimalStep(4294967, 2); }
      Decimal(4294967) + "297";
      { DecimalStep(429496, 7); }
      Decimal(429496) + "7297";
      { DecimalStep(42949, 6); }
      Decimal(42949) + "67297";
      { DecimalOfWrappingIndexHead(); }
      "4294967297";
    }
    assert Spelled([4294967297]) == [Decimal(4294967297)];
    assert Render([4294967297]) == Decimal(4294967297) + Separated([]);
  }

  lemma DecimalOfWrappingIndexHead()
    ensures Decimal(42949) == "42949"
  {
    calc {
      Decimal(42949);
      { DecimalStep(4294, 9); }
      Decimal(4294) + "9";
      { DecimalStep(429, 4); }
      Decimal(429) + "49";
      { DecimalStep(42, 9); }
      Decimal(42) + "949";
      { DecimalStep(4, 2); }
      Decimal(4) + "2949";
      "42949";
    }
  }

  /** The last digit of 10q + r is r. */
  lemma DecimalStep(q: nat, r: nat)
    requires q >= 1 && r < 10
    ensures Decimal(10 * q + r) == Decimal(q) + [('0' as int + r) as char]
  {
    assert (10 * q + r) / 10 == q && (10 * q + r) % 10 == r;
  }

  lemma NarrowingWrappingIndex()
    ensures NarrowToInt(4294967297) == 1
  {
    assert 4294967297 % 0x1_0000_0000 == 1;
  }
}
