/** What the decoder's neighbour rule does and does not say about the desktop as a whole. */
module Connectivity {
  import opened Basics
  import opened Geometry
  import opened MonitorLayout

  /** The monitors marked in `part` do not touch any of the others: the desktop falls apart. */
  ghost predicate FallsApart(ws: seq<WireMonitor>, part: seq<bool>) {
    && |part| == |ws|
    && (exists i :: 0 <= i < |ws| && part[i])
    && (exists i :: 0 <= i < |ws| && !part[i])
    && forall i, j :: 0 <= i < |ws| && 0 <= j < |ws| && part[i] && !part[j] ==>
         !BordersMeet(ws[i].Area(), ws[j].Area())
  }

  lemma NeighbourTouches(ws: seq<WireMonitor>, i: nat)
    requires i < |ws| && HasNeighbour(ws, i)
    ensures exists j: nat :: j < |ws| && j != i && BordersMeet(ws[i].Area(), ws[j].Area())
    ensures exists j: nat :: j < |ws| && j != i && BordersMeet(ws[j].Area(), ws[i].Area())
  {
  }

  lemma NoneStandsAlone(ws: seq<WireMonitor>, part: seq<bool>, i: nat)
    requires i < |ws| == |part| && HasNeighbour(ws, i)
    requires forall j :: 0 <= j < |ws| && j != i ==> part[j] != part[i]
    ensures !FallsApart(ws, part)
  {
    NeighbourTouches(ws, i);
  }

  /** A neighbour for everyone keeps up to three monitors together. */
  lemma ThreeMonitorsStayTogether(ws: seq<WireMonitor>, part: seq<bool>)
    requires |ws| <= 3 && (|ws| > 1 ==> forall i :: 0 <= i < |ws| ==> HasNeighbour(ws, i))
    ensures !FallsApart(ws, part)
  {
    if FallsApart(ws, part) {
      var lone := if |ws| == 2 || (part[0] != part[1] && part[0] != part[2]) then 0
                  else if part[0] == part[1] then 2 else 1;
      NoneStandsAlone(ws, part, lone);
    }
  }

  // Four monitors or more: two that touch, and the others in a row of their own, too far away to touch them.

  function Left(i: nat): int {
    if i < 2 then 200 * i else 600 + 200 * i
  }

  function Square(i: nat): WireMonitor
    requires i < MAXIMUM_MONITOR_COUNT
  {
    WireMonitor(if i == 0 then 1 else 0, Left(i), 0, 200, 200, 0, 0, 0, 100, 100)
  }

  function Row(n: nat): seq<WireMonitor>
    requires n <= MAXIMUM_MONITOR_COUNT
  {
    seq(n, i requires 0 <= i < n => Square(i))
  }

  function FirstTwo(n: nat): seq<bool> {
    seq(n, i => i < 2)
  }

  lemma SquaresApart(i: nat, j: nat)
    requires i < j < MAXIMUM_MONITOR_COUNT
    ensures !SharePixel(Square(i).Area(), Square(j).Area())
    ensures i < 2 <= j ==> !BordersMeet(Square(i).Area(), Square(j).Area())
  {
  }

  lemma SquaresTouch(i: nat)
    requires i + 1 < MAXIMUM_MONITOR_COUNT && i != 1
    ensures BordersMeet(Square(i).Area(), Square(i + 1).Area()) && BordersMeet(Square(i + 1).Area(), Square(i).Area())
    ensures !SharePixel(Square(i + 1).Area(), Square(i).Area())
  {
    var x := Left(i + 1);
    assert Square(i).Area().Touches(x, 0) && Square(i + 1).Area().Touches(x, 0);
    SquaresApart(i, i + 1);
  }

  lemma RowHasNeighbours(n: nat, i: nat)
    requires 4 <= n <= MAXIMUM_MONITOR_COUNT && i < n
    ensures HasNeighbour(Row(n), i)
  {
    var j := if i == 0 || i == 2 then i + 1 else i - 1;
    SquaresTouch(Min(i, j));
    SquaresApart(Min(i, j), Max(i, j));
    assert Row(n)[i] == Square(i) && Row(n)[j] == Square(j);
  }

  lemma RowIsSound(n: nat)
    requires 4 <= n <= MAXIMUM_MONITOR_COUNT
    ensures NoOverlap(Row(n)) && SmallEnough(Row(n)) && SinglePrimaryAtOrigin(Row(n))
  {
    forall i, j | 0 <= i < j < n
      ensures !SharePixel(Row(n)[i].Area(), Row(n)[j].Area())
    {
      SquaresApart(i, j);
    }
    assert Row(n)[0].IsPrimary() && Row(n)[0].AtOrigin();
  }

  lemma RowIsValid(n: nat)
    requires 4 <= n <= MAXIMUM_MONITOR_COUNT
    ensures ValidLayout(Row(n))
  {
    RowIsSound(n);
    forall i | 0 <= i < n
      ensures HasNeighbour(Row(n), i)
    {
      RowHasNeighbours(n, i);
    }
  }

  lemma RowFallsApart(n: nat)
    requires 4 <= n <= MAXIMUM_MONITOR_COUNT
    ensures FallsApart(Row(n), FirstTwo(n))
  {
    var ws, part := Row(n), FirstTwo(n);
    forall i, j | 0 <= i < n && 0 <= j < n && part[i] && !part[j]
      ensures !BordersMeet(ws[i].Area(), ws[j].Area())
    {
      SquaresApart(i, j);
    }
    assert part[0] && !part[2];
  }

  /** The neighbour rule keeps every accepted layout of `n` monitors together. */
  ghost predicate StayTogether(n: nat) {
    forall ws, part :: |ws| == n && ValidLayout(ws) ==> !FallsApart(ws, part)
  }

  /** Of the numbers of monitors the decoder accepts, the neighbour rule keeps exactly up to three together. */
  lemma StayTogetherIffAtMostThree(n: nat)
    requires 1 <= n <= MAXIMUM_MONITOR_COUNT
    ensures StayTogether(n) <==> n <= 3
  {
    if n <= 3 {
      forall ws: seq<WireMonitor>, part | |ws| == n && ValidLayout(ws)
        ensures !FallsApart(ws, part)
      {
        ThreeMonitorsStayTogether(ws, part);
      }
    } else {
      RowIsValid(n);
      RowFallsApart(n);
    }
  }
}
