/** lib/util/celsius-to-gasmark.ts: gas marks and the hottest Celsius
    temperature each one stands for. */
module GasMark {
  import opened Wrappers

  /** `celsiusTempForMark`: the maximum temperature of gas marks 0 to 12
      (entry 0 is a placeholder; marks up to 1/2 are handled apart). */
  const CelsiusTempForMark: seq<int> :=
    [0, 140, 150, 160, 180, 190, 200, 210, 220, 240, 260, 280, 290]

  predicate IsWhole(x: real) { x == x.Floor as real }

  /** `gasMarkToCelsius(mark)`. A mark below 0 or from 13 up throws, with
      the mark as JavaScript prints it (`show`) in the message; marks
      up to 1/4 and up to 1/2 have fixed temperatures; any other mark
      indexes the table, and an index that is not a whole number yields
      JavaScript's `undefined`, modelled as `None`. */
  function GasMarkToCelsius(mark: real, show: real -> string): (r: Result<Option<int>>)
    ensures r.Err? <==> mark < 0.0 || mark >= |CelsiusTempForMark| as real
    ensures r.Err? ==> r.message == "invalid mark '" + show(mark) + "'"
    ensures r.Ok? && mark <= 0.25 ==> r.value == Some(107)
    ensures r.Ok? && 0.25 < mark <= 0.5 ==> r.value == Some(121)
    ensures r.Ok? && mark > 0.5 ==> (r.value.Some? <==> IsWhole(mark))
  {
    if mark < 0.0 || mark >= |CelsiusTempForMark| as real then Err("invalid mark '" + show(mark) + "'")
    else if mark <= 0.25 then Ok(Some(107))
    else if mark <= 0.5 then Ok(Some(121))
    else if IsWhole(mark) then Ok(Some(CelsiusTempForMark[mark.Floor]))
    else Ok(None)
  }

  /** The for-of search of `celsiusToGasMark`: the first mark from `from` on
      whose maximum is at least `celsius`, or the table length if none is. */
  function FirstMarkAtLeast(celsius: real, from: nat): (m: nat)
    requires from <= |CelsiusTempForMark|
    decreases |CelsiusTempForMark| - from
    ensures from <= m <= |CelsiusTempForMark|
    ensures m < |CelsiusTempForMark| ==> celsius <= CelsiusTempForMark[m] as real
    ensures forall j :: from <= j < m ==> CelsiusTempForMark[j] as real < celsius
  {
    if from == |CelsiusTempForMark| then from
    else if celsius <= CelsiusTempForMark[from] as real then from
    else FirstMarkAtLeast(celsius, from + 1)
  }

  /** `celsiusToGasMark(celsius)`: 1/4 up to 110, 1/2 up to 130, then the
      smallest mark whose maximum is not below the temperature, and 13 above
      the whole table. */
  function CelsiusToGasMark(celsius: real): (mark: real)
    ensures celsius <= 110.0 ==> mark == 0.25
    ensures 110.0 < celsius <= 130.0 ==> mark == 0.5
    ensures celsius > 130.0 ==> IsWhole(mark) && 1.0 <= mark <= 13.0
    ensures celsius > 130.0 && mark < 13.0 ==>
      celsius <= CelsiusTempForMark[mark.Floor] as real
      && forall j :: 0 <= j < mark.Floor ==> CelsiusTempForMark[j] as real < celsius
    ensures celsius > 290.0 ==> mark == 13.0
  {
    if celsius <= 110.0 then 0.25
    else if celsius <= 130.0 then 0.5
    else FirstMarkAtLeast(celsius, 0) as real
  }

  /** A hotter oven never gets a lower gas mark. */
  lemma {:induction false} CelsiusToGasMarkMonotone(a: real, b: real)
    requires a <= b
    ensures CelsiusToGasMark(a) <= CelsiusToGasMark(b)
  {
    if a > 130.0 {
      var ma, mb := FirstMarkAtLeast(a, 0), FirstMarkAtLeast(b, 0);
      if mb < ma {
        assert CelsiusTempForMark[mb] as real < a;
      }
    }
  }

  /** Apart from the placeholder, the table strictly increases. */
  lemma TableIncreases(i: nat, j: nat)
    requires 1 <= i < j < |CelsiusTempForMark|
    ensures CelsiusTempForMark[i] < CelsiusTempForMark[j]
  {
  }

  /** For whole marks 1 to 12, converting to Celsius and back gives the mark. */
  lemma {:induction false} GasMarkRoundTrip(m: nat, show: real -> string)
    requires 1 <= m <= 12
    ensures GasMarkToCelsius(m as real, show) == Ok(Some(CelsiusTempForMark[m]))
    ensures CelsiusToGasMark(CelsiusTempForMark[m] as real) == m as real
  {
    var c := CelsiusTempForMark[m] as real;
    var k := FirstMarkAtLeast(c, 0);
    assert c > 130.0;
    if k < m {
      TableIncreases(if k == 0 then 1 else k, m);
    }
  }

  /** The values of tests/util/celsius-to-gasmark.spec.ts. */
  lemma CelsiusToGasMarkExamples()
    ensures CelsiusToGasMark(90.0) == 0.25 && CelsiusToGasMark(100.0) == 0.25
    ensures CelsiusToGasMark(130.0) == 0.5 && CelsiusToGasMark(140.0) == 1.0
    ensures CelsiusToGasMark(149.0) == 2.0 && CelsiusToGasMark(150.0) == 2.0
    ensures CelsiusToGasMark(151.0) == 3.0 && CelsiusToGasMark(280.0) == 11.0
    ensures CelsiusToGasMark(290.0) == 12.0 && CelsiusToGasMark(300.0) == 13.0
    ensures CelsiusToGasMark(1000.0) == 13.0
  {
    MarkBetween(140.0, 1);
    MarkBetween(149.0, 2);
    MarkBetween(150.0, 2);
    MarkBetween(151.0, 3);
    MarkBetween(280.0, 11);
    MarkBetween(290.0, 12);
    MarkBetween(300.0, 13);
    MarkBetween(1000.0, 13);
  }

  /** Above 130 degrees, the mark is the one whose maximum is the first not
      below the temperature. */
  lemma MarkBetween(c: real, m: nat)
    requires c > 130.0 && 1 <= m <= |CelsiusTempForMark|
    requires CelsiusTempForMark[m - 1] as real < c
    requires m < |CelsiusTempForMark| ==> c <= CelsiusTempForMark[m] as real
    ensures CelsiusToGasMark(c) == m as real
  {
    forall j | 1 <= j < m - 1 ensures CelsiusTempForMark[j] as real < c {
      TableIncreases(j, m - 1);
    }
    FirstMarkIs(c, 0, m);
  }

  lemma {:induction false} FirstMarkIs(c: real, from: nat, m: nat)
    requires from <= m <= |CelsiusTempForMark|
    requires forall j :: from <= j < m ==> CelsiusTempForMark[j] as real < c
    requires m < |CelsiusTempForMark| ==> c <= CelsiusTempForMark[m] as real
    decreases m - from
    ensures FirstMarkAtLeast(c, from) == m
  {
    if from < m {
      FirstMarkIs(c, from + 1, m);
    }
  }

  /** Marks outside 0 to 12 are refused; the fixed and the tabled
      temperatures. */
  lemma GasMarkToCelsiusExamples(show: real -> string)
    ensures GasMarkToCelsius(-1.0, show) == Err("invalid mark '" + show(-1.0) + "'")
    ensures GasMarkToCelsius(100.0, show) == Err("invalid mark '" + show(100.0) + "'")
    ensures GasMarkToCelsius(0.25, show) == Ok(Some(107)) && GasMarkToCelsius(0.5, show) == Ok(Some(121))
    ensures GasMarkToCelsius(7.0, show) == Ok(Some(210)) && GasMarkToCelsius(9.0, show) == Ok(Some(240))
    ensures GasMarkToCelsius(7.5, show) == Ok(None)
  {
    GasMarkRoundTrip(7, show);
    GasMarkRoundTrip(9, show);
  }
}
