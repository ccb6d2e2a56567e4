/**
  `createCompassPoints` and its helper `getDirection`: the 32 points of the
  compass, named from the four cardinal directions only, clockwise from
  north, each 11.25 degrees after the previous one.

  The azimuth is a JavaScript number that starts at 0 and grows by 11.25 per
  point. Every value it takes, k * 45 / 4 for k < 32, is exact in binary
  floating point, so the model uses `real` and loses nothing.
 */
module Compass {

  datatype CompassPoint = CompassPoint(abbreviation: string, azimuth: real)

  /** The cardinal directions `createCompassPoints` starts from, clockwise. */
  const Cardinals: seq<string> := ["N", "E", "S", "W"]

  /** The angle between two consecutive points. */
  const Step: real := 11.25

  /**
    The 32 points as the standard compass rose names them, one quarter per
    row: the cardinal, "by" the next cardinal, the secondary-intercardinal,
    the intercardinal "by" the cardinal, the intercardinal, and on towards
    the next cardinal.
   */
  const NorthEastNames: seq<string> := ["N", "NbE", "NNE", "NEbN", "NE", "NEbE", "ENE", "EbN"]
  const SouthEastNames: seq<string> := ["E", "EbS", "ESE", "SEbE", "SE", "SEbS", "SSE", "SbE"]
  const SouthWestNames: seq<string> := ["S", "SbW", "SSW", "SWbS", "SW", "SWbW", "WSW", "WbS"]
  const NorthWestNames: seq<string> := ["W", "WbN", "WNW", "NWbW", "NW", "NWbN", "NNW", "NbW"]
  const PointNames: seq<string> := NorthEastNames + SouthEastNames + SouthWestNames + NorthWestNames

  /**
    `getDirection(sides, i)`: point i of the eight-point rose built on the
    four sides. An even i is a side itself; an odd i joins the two sides
    around it, the first or third side (north or south, for the cardinals)
    always written first, as the eight-point rose names NE, SE, SW and NW.
   */
  function GetDirection(sides: seq<string>, i: nat): (r: string)
    requires |sides| == 4 && i < 8
    ensures i % 2 == 0 ==> r == sides[i / 2]
    ensures i % 2 == 1 ==> r == sides[Leading(i / 2, (i / 2 + 1) % 4)] + sides[Trailing(i / 2, (i / 2 + 1) % 4)]
  {
    var mid := i / 2;
    if i % 2 == 0 then sides[mid]
    else if i % 4 == 1 then sides[mid] + sides[mid + 1]
    else sides[(mid + 1) % 4] + sides[mid]
  }

  /** Of two adjacent sides, the one at an even position: north or south among the cardinals. */
  function Leading(a: nat, b: nat): nat
  {
    if a % 2 == 0 then a else b
  }

  /** Of two adjacent sides, the one at an odd position: east or west among the cardinals. */
  function Trailing(a: nat, b: nat): nat
  {
    if a % 2 == 0 then b else a
  }

  /** On the cardinals the eight points are the usual ones, the north-south letter leading. */
  lemma EightPoints()
    ensures GetDirection(Cardinals, 0) == "N" && GetDirection(Cardinals, 1) == "NE"
    ensures GetDirection(Cardinals, 2) == "E" && GetDirection(Cardinals, 3) == "SE"
    ensures GetDirection(Cardinals, 4) == "S" && GetDirection(Cardinals, 5) == "SW"
    ensures GetDirection(Cardinals, 6) == "W" && GetDirection(Cardinals, 7) == "NW"
  {
    var n, e, s, w := Cardinals[0], Cardinals[1], Cardinals[2], Cardinals[3];
    assert GetDirection(Cardinals, 1) == n + e;
    assert GetDirection(Cardinals, 3) == s + e;
    assert GetDirection(Cardinals, 5) == s + w;
    assert GetDirection(Cardinals, 7) == n + w;
  }

  /**
    The `arr` of one quarter: starting at `side` and ending before `next`,
    with `mid` the intercardinal between them.
   */
  function Quarter(side: string, mid: string, next: string): seq<string>
  {
    [side, side + "b" + next, side + mid, mid + "b" + side,
     mid, mid + "b" + next, next + mid, next + "b" + side]
  }

  /** A quarter holds the given eight names when each of them is spelled as `Quarter` joins it. */
  lemma QuarterSpelled(side: string, mid: string, next: string, names: seq<string>)
    requires |names| == 8
    requires names[0] == side && names[1] == side + "b" + next
    requires names[2] == side + mid && names[3] == mid + "b" + side
    requires names[4] == mid && names[5] == mid + "b" + next
    requires names[6] == next + mid && names[7] == next + "b" + side
    ensures Quarter(side, mid, next) == names
  {
  }

  /** The row of the name table for quarter i. */
  function NamesOfQuarter(i: nat): seq<string>
    requires i < 4
  {
    if i == 0 then NorthEastNames
    else if i == 1 then SouthEastNames
    else if i == 2 then SouthWestNames
    else NorthWestNames
  }

  /** The table lists the quarters in order, eight names each. */
  lemma PointNamesByQuarter(i: nat)
    requires i < 4
    ensures forall j :: 0 <= j < 8 ==> PointNames[8 * i + j] == NamesOfQuarter(i)[j]
  {
  }

  /** Each quarter built from the cardinals holds the standard names of its eight points. */
  lemma QuarterNames(i: nat)
    requires i < 4
    ensures Quarter(GetDirection(Cardinals, 2 * i), GetDirection(Cardinals, (2 * i + 1) % 8),
                    GetDirection(Cardinals, (2 * i + 2) % 8)) == NamesOfQuarter(i)
  {
    EightPoints();
    var side, mid, next := 2 * i, (2 * i + 1) % 8, (2 * i + 2) % 8;
    if i == 0 {
      assert side == 0 && mid == 1 && next == 2;
      QuarterSpelled("N", "NE", "E", NorthEastNames);
    } else if i == 1 {
      assert side == 2 && mid == 3 && next == 4;
      QuarterSpelled("E", "SE", "S", SouthEastNames);
    } else if i == 2 {
      assert side == 4 && mid == 5 && next == 6;
      QuarterSpelled("S", "SW", "W", SouthWestNames);
    } else {
      assert side == 6 && mid == 7 && next == 0;
      QuarterSpelled("W", "NW", "N", NorthWestNames);
    }
  }

  /** The first `count` points, each with its name from `names` and an azimuth of its index times 11.25. */
  predicate Prefix(names: seq<string>, rez: seq<CompassPoint>, count: nat)
  {
    && |rez| == count
    && count <= |names|
    && forall k :: 0 <= k < count ==> rez[k] == CompassPoint(names[k], Step * k as real)
  }

  /**
    The body of the outer loop up to the `forEach`: the side, the
    intercardinal after it and the next side, and the eight names between
    them.
   */
  method QuarterOf(i: nat) returns (arr: seq<string>)
    requires i < 4
    ensures |arr| == 8
    ensures forall j :: 0 <= j < 8 ==> arr[j] == PointNames[8 * i + j]
  {
    var side := GetDirection(Cardinals, 2 * i);
    var nextMidSide := GetDirection(Cardinals, (2 * i + 1) % 8);
    var nextSide := GetDirection(Cardinals, (2 * i + 2) % 8);
    arr := Quarter(side, nextMidSide, nextSide);
    QuarterNames(i);
    PointNamesByQuarter(i);
  }

  /**
    The `forEach` over one quarter's `arr`: each name is pushed with the
    running azimuth, which then grows by 11.25.
   */
  method PushQuarter(names: seq<string>, rez: seq<CompassPoint>, counter: real, arr: seq<string>)
    returns (rez': seq<CompassPoint>, counter': real)
    requires |arr| == 8 && |rez| + 8 <= |names|
    requires Prefix(names, rez, |rez|) && counter == Step * |rez| as real
    requires forall j :: 0 <= j < 8 ==> arr[j] == names[|rez| + j]
    ensures Prefix(names, rez', |rez| + 8) && counter' == Step * (|rez| + 8) as real
  {
    rez', counter' := rez, counter;
    var j := 0;
    while j < |arr|
      invariant 0 <= j <= 8
      invariant Prefix(names, rez', |rez| + j) && counter' == Step * (|rez| + j) as real
    {
      rez' := rez' + [CompassPoint(arr[j], counter')];
      counter' := counter' + Step;
      j := j + 1;
    }
  }

  /**
    `createCompassPoints`: for each cardinal side, the side, the
    intercardinal after it and the next side are taken from `getDirection`,
    and the eight names between them are pushed in order.
   */
  method CreateCompassPoints() returns (rez: seq<CompassPoint>)
    ensures |rez| == 32
    ensures forall k :: 0 <= k < |rez| ==> rez[k].abbreviation == PointNames[k]
    ensures forall k :: 0 <= k < |rez| ==> rez[k].azimuth == Step * k as real
  {
    rez := [];
    var counter: real := 0.0;
    var i := 0;
    while i < |Cardinals|
      invariant 0 <= i <= 4
      invariant Prefix(PointNames, rez, 8 * i) && counter == Step * (8 * i) as real
    {
      var arr := QuarterOf(i);
      rez, counter := PushQuarter(PointNames, rez, counter, arr);
      i := i + 1;
    }
  }

  /** Read back from the result: the cardinals sit 90 degrees apart, at every eighth point. */
  lemma CardinalsEveryEighthPoint(rez: seq<CompassPoint>, i: nat)
    requires Prefix(PointNames, rez, 32) && i < 4
    ensures rez[8 * i].abbreviation == Cardinals[i] && rez[8 * i].azimuth == 90.0 * i as real
  {
  }

  /** The documented first, second, third and last entries. */
  lemma ExampleEnds(rez: seq<CompassPoint>)
    requires Prefix(PointNames, rez, 32)
    ensures rez[0] == CompassPoint("N", 0.0)
    ensures rez[1] == CompassPoint("NbE", 11.25)
    ensures rez[2] == CompassPoint("NNE", 22.5)
    ensures rez[31] == CompassPoint("NbW", 348.75)
  {
  }
}
