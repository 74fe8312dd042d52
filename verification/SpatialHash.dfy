// The grid index of player positions, and the radius query that must agree with a
// brute-force scan (internal/game/spatial, internal/game/interest).

module SpatialHash {
  import opened Common
  import opened Geometry

  datatype Cell = Cell(x: int, z: int)

  datatype Entry = Entry(cell: Cell, pos: Pos)

  const DEFAULT_MAX_WORLD_COORD := 100000.0

  function ToCell(pos: Pos, size: real): Cell
    requires size > 0.0
  {
    Cell((pos.x / size).Floor, (pos.z / size).Floor)
  }

  function Ceil(r: real): (n: int)
    ensures n as real - 1.0 < r <= n as real
  {
    -((-r).Floor)
  }

  predicate Within(pos: Pos, bound: real) {
    -bound <= pos.x <= bound && -bound <= pos.z <= bound
  }

  /** Brute force: everyone within the radius. */
  ghost function InRadius(positions: map<PlayerID, Pos>, pos: Pos, radius: real): set<PlayerID> {
    set id | id in positions && SqDist(pos, positions[id]) <= Square(radius)
  }

  // ----- Which cells can hold a hit ----------------------------------------------

  lemma FloorGap(u: real, v: real, c: int)
    requires u - v <= c as real
    ensures u.Floor - v.Floor <= c
  {
    assert u < v.Floor as real + 1.0 + c as real;
  }

  lemma AxisCovered(a: real, b: real, radius: real, size: real)
    requires size > 0.0 && radius > 0.0 && -radius <= a - b <= radius
    ensures -Ceil(radius / size) <= (a / size).Floor - (b / size).Floor <= Ceil(radius / size)
  {
    var c := Ceil(radius / size);
    ScaledGap(a - b, radius, size);
    ScaledGap(b - a, radius, size);
    assert a / size - b / size == (a - b) / size;
    assert b / size - a / size == (b - a) / size;
    FloorGap(a / size, b / size, c);
    FloorGap(b / size, a / size, c);
  }

  lemma ScaledGap(d: real, radius: real, size: real)
    requires size > 0.0 && d <= radius
    ensures d / size <= radius / size
  {
  }

  lemma AxisWithin(d: real, other: real, radius: real)
    requires radius > 0.0 && Square(d) + Square(other) <= Square(radius)
    ensures -radius <= d <= radius
  {
    SquareSign(other);
    var m := if d >= 0.0 then d else -d;
    assert Square(m) == Square(d);
    SquareOrder(m, radius);
  }

  ghost predicate InWindow(cell: Cell, centre: Cell, reach: int) {
    -reach <= cell.x - centre.x <= reach && -reach <= cell.z - centre.z <= reach
  }

  /** The window of cells around the viewer covers the whole disc. */
  lemma WindowCovers(pos: Pos, q: Pos, radius: real, size: real)
    requires size > 0.0 && radius > 0.0 && SqDist(pos, q) <= Square(radius)
    ensures InWindow(ToCell(q, size), ToCell(pos, size), Ceil(radius / size))
  {
    AxisWithin(pos.x - q.x, pos.z - q.z, radius);
    AxisWithin(pos.z - q.z, pos.x - q.x, radius);
    AxisCovered(pos.x, q.x, radius, size);
    AxisCovered(pos.z, q.z, radius, size);
  }

  method ScanCell(cell: map<PlayerID, Pos>, pos: Pos, radiusSq: real) returns (hits: seq<PlayerID>)
    ensures NoDuplicates(hits)
    ensures forall id :: id in hits <==> id in cell && SqDist(pos, cell[id]) <= radiusSq
  {
    hits := [];
    var rest := cell.Keys;
    while rest != {}
      invariant rest <= cell.Keys && NoDuplicates(hits)
      invariant forall id :: id in hits <==> id in cell.Keys - rest && SqDist(pos, cell[id]) <= radiusSq
    {
      var id :| id in rest;
      rest := rest - {id};
      if SqDist(pos, cell[id]) <= radiusSq {
        hits := hits + [id];
      }
    }
  }

  // ----- The two maps ------------------------------------------------------------

  type Cells = map<Cell, map<PlayerID, Pos>>

  /** cells and entities describe one placement, and no cell is empty. */
  ghost predicate Consistent(cells: Cells, entities: map<PlayerID, Entry>, size: real)
    requires size > 0.0
  {
    && (forall id :: id in entities ==> Placed(cells, entities[id], id, size))
    && (forall c, id {:trigger id in cells[c]} ::
          c in cells && id in cells[c] ==> id in entities && entities[id].cell == c)
    && (forall c :: c in cells ==> cells[c] != map[])
  }

  ghost predicate Placed(cells: Cells, e: Entry, id: PlayerID, size: real)
    requires size > 0.0
  {
    e.cell == ToCell(e.pos, size) && e.cell in cells && id in cells[e.cell] && cells[e.cell][id] == e.pos
  }

  /** Cells after taking id out of one of them, dropping it when it empties. */
  function Dropped(cells: Cells, id: PlayerID, coord: Cell): Cells {
    if coord !in cells then cells
    else
      var cell := cells[coord] - {id};
      if cell == map[] then cells - {coord} else cells[coord := cell]
  }

  function Put(cells: Cells, id: PlayerID, coord: Cell, pos: Pos): Cells {
    cells[coord := (if coord in cells then cells[coord] else map[])[id := pos]]
  }

  lemma DroppedCells(cells: Cells, id: PlayerID, coord: Cell)
    requires coord in cells
    ensures var after := Dropped(cells, id, coord);
      && (forall c :: c in after ==> c in cells && (after[c] != map[] || cells[c] == map[]))
      && (forall c, x ::
            c in after && x in after[c] ==> x in cells[c] && after[c][x] == cells[c][x] && !(c == coord && x == id))
      && (forall c, x :: c in cells && x in cells[c] && !(c == coord && x == id) ==> c in after && x in after[c])
  {
    var cell := cells[coord] - {id};
    assert forall x :: x in cells[coord] && x != id ==> x in cell;
  }

  lemma DropConsistent(cells: Cells, entities: map<PlayerID, Entry>, size: real, id: PlayerID)
    requires size > 0.0 && Consistent(cells, entities, size) && id in entities
    ensures Consistent(Dropped(cells, id, entities[id].cell), entities - {id}, size)
  {
    hide ToCell;
    var coord := entities[id].cell;
    var after := Dropped(cells, id, coord);
    DroppedCells(cells, id, coord);
    hide Dropped;
    assert Placed(cells, entities[id], id, size);
    forall other | other in entities - {id}
      ensures Placed(after, entities[other], other, size)
    {
      assert Placed(cells, entities[other], other, size);
    }
    forall c, other | c in after && other in after[c]
      ensures other in entities - {id} && entities[other].cell == c
    {
      assert c in cells && other in cells[c];
    }
  }

  lemma PutConsistent(cells: Cells, entities: map<PlayerID, Entry>, size: real, id: PlayerID, pos: Pos)
    requires size > 0.0 && Consistent(cells, entities, size)
    requires id in entities ==> entities[id].cell == ToCell(pos, size)
    ensures Consistent(Put(cells, id, ToCell(pos, size), pos), entities[id := Entry(ToCell(pos, size), pos)], size)
  {
    hide ToCell;
    var coord := ToCell(pos, size);
    var after, entities' := Put(cells, id, coord, pos), entities[id := Entry(coord, pos)];
    forall other | other in entities'
      ensures Placed(after, entities'[other], other, size)
    {
      if other != id {
        assert Placed(cells, entities[other], other, size);
      }
    }
    forall c, other | c in after && other in after[c]
      ensures other in entities' && entities'[other].cell == c
    {
      if other != id {
        assert c in cells && other in cells[c];
      }
    }
    assert id in after[coord];
  }

  class GridSpatialHash {
    const cellSize: real
    const maxWorldCoord: real
    var cells: Cells
    var entities: map<PlayerID, Entry>

    ghost predicate Valid()
      reads this
    {
      cellSize > 0.0 && maxWorldCoord > 0.0 && Consistent(cells, entities, cellSize)
    }

    /** What the index says, without the grid. */
    ghost function Positions(): (m: map<PlayerID, Pos>)
      reads this
      ensures m.Keys == entities.Keys
    {
      map id | id in entities :: entities[id].pos
    }

    constructor (cellSizeM: real, maxCoord: real)
      requires cellSizeM > 0.0
      ensures Valid() && Positions() == map[]
      ensures cellSize == cellSizeM
      ensures maxWorldCoord == if maxCoord <= 0.0 then DEFAULT_MAX_WORLD_COORD else maxCoord
    {
      cellSize := cellSizeM;
      maxWorldCoord := if maxCoord <= 0.0 then DEFAULT_MAX_WORLD_COORD else maxCoord;
      cells := map[];
      entities := map[];
    }

    method Update(id: PlayerID, pos: Pos) returns (ok: bool)
      requires Valid()
      modifies this
      ensures Valid()
      ensures ok <==> Within(pos, maxWorldCoord)
      ensures Positions() == if ok then old(Positions())[id := pos] else old(Positions())
    {
      hide ToCell, Consistent, Put, Dropped;
      ok := Within(pos, maxWorldCoord);
      if !ok {
        return;
      }
      var newCell := ToCell(pos, cellSize);
      if id in entities {
        var entry := entities[id];
        if entry.cell == newCell {
          PutConsistent(cells, entities, cellSize, id, pos);
          cells := Put(cells, id, newCell, pos);
          entities := entities[id := Entry(newCell, pos)];
          return;
        }
        DropConsistent(cells, entities, cellSize, id);
        cells := Dropped(cells, id, entry.cell);
      }
      PutConsistent(cells, entities - {id}, cellSize, id, pos) by {
        assert id !in entities ==> entities - {id} == entities;
      }
      assert entities[id := Entry(newCell, pos)] == (entities - {id})[id := Entry(newCell, pos)];
      cells := Put(cells, id, newCell, pos);
      entities := entities[id := Entry(newCell, pos)];
    }

    method Remove(id: PlayerID)
      requires Valid()
      modifies this
      ensures Valid() && Positions() == old(Positions()) - {id}
    {
      hide Consistent, Dropped;
      if id in entities {
        DropConsistent(cells, entities, cellSize, id);
        cells := Dropped(cells, id, entities[id].cell);
        entities := entities - {id};
      }
    }

    method Get(id: PlayerID) returns (pos: Option<Pos>)
      ensures pos == if id in Positions() then Some(Positions()[id]) else None
    {
      pos := if id in entities then Some(entities[id].pos) else None;
    }

    method Clear()
      requires Valid()
      modifies this
      ensures Valid() && Positions() == map[]
    {
      cells := map[];
      entities := map[];
    }

    ghost predicate Hit(id: PlayerID, pos: Pos, radiusSq: real, visited: iset<Cell>)
      reads this
    {
      id in entities && entities[id].cell in visited && SqDist(pos, entities[id].pos) <= radiusSq
    }

    /** Adds one cell's hits to those of the cells visited so far. */
    method Visit(cell: Cell, pos: Pos, radiusSq: real, found: seq<PlayerID>, ghost visited: iset<Cell>)
      returns (result: seq<PlayerID>)
      requires Valid() && cell !in visited && NoDuplicates(found)
      requires forall id :: id in found <==> Hit(id, pos, radiusSq, visited)
      ensures NoDuplicates(result)
      ensures forall id :: id in result <==> Hit(id, pos, radiusSq, visited + iset{cell})
    {
      hide ToCell, SqDist;
      if cell in cells {
        var hits := ScanCell(cells[cell], pos, radiusSq);
        forall id
          ensures id in hits <==> Hit(id, pos, radiusSq, iset{cell})
        {
          if id in entities {
            assert Placed(cells, entities[id], id, cellSize);
          }
        }
        result := found + hits;
        forall i, j | 0 <= i < |found| && 0 <= j < |hits|
          ensures found[i] != hits[j]
        {
          assert found[i] in found && hits[j] in hits;
          assert Hit(found[i], pos, radiusSq, visited) && Hit(hits[j], pos, radiusSq, iset{cell});
        }
      } else {
        assert forall id :: id in entities ==> Placed(cells, entities[id], id, cellSize);
        result := found;
      }
    }

    method QueryRadius(pos: Pos, radius: real) returns (result: seq<PlayerID>)
      requires Valid()
      ensures radius <= 0.0 || !Within(pos, maxWorldCoord) ==> result == []
      ensures NoDuplicates(result)
      ensures radius > 0.0 && Within(pos, maxWorldCoord)
        ==> forall id :: id in result <==> id in InRadius(Positions(), pos, radius)
    {
      result := [];
      if radius <= 0.0 || !Within(pos, maxWorldCoord) {
        return;
      }
      hide Square, SqDist, ToCell;
      var centre := ToCell(pos, cellSize);
      var reach := Ceil(radius / cellSize);
      var radiusSq := Square(radius);
      ghost var visited: iset<Cell> := iset{};
      var cx := centre.x - reach;
      while cx <= centre.x + reach
        invariant centre.x - reach <= cx
        invariant forall c :: c in visited ==> c.x < cx
        invariant forall c :: InWindow(c, centre, reach) && c.x < cx ==> c in visited
        invariant NoDuplicates(result)
        invariant forall id :: id in result <==> Hit(id, pos, radiusSq, visited)
        decreases centre.x + reach - cx
      {
        var cz := centre.z - reach;
        while cz <= centre.z + reach
          invariant centre.z - reach <= cz
          invariant forall c :: c in visited ==> c.x < cx || (c.x == cx && c.z < cz)
          invariant forall c :: InWindow(c, centre, reach) && (c.x < cx || (c.x == cx && c.z < cz)) ==> c in visited
          invariant NoDuplicates(result)
          invariant forall id :: id in result <==> Hit(id, pos, radiusSq, visited)
          decreases centre.z + reach - cz
        {
          result := Visit(Cell(cx, cz), pos, radiusSq, result, visited);
          visited := visited + iset{Cell(cx, cz)};
          cz := cz + 1;
        }
        cx := cx + 1;
      }
      forall id | id in InRadius(Positions(), pos, radius)
        ensures id in result
      {
        assert Placed(cells, entities[id], id, cellSize);
        WindowCovers(pos, entities[id].pos, radius, cellSize);
      }
    }
  }
}

module Interest {
  import opened Common
  import opened Geometry
  import opened SpatialHash

  /** The players a viewer sees in radius mode. */
  ghost function VisibleAround(positions: map<PlayerID, Pos>, bound: real, viewer: PlayerID, pos: Pos,
                               radius: real): set<PlayerID>
  {
    if radius > 0.0 && Within(pos, bound) then InRadius(positions, pos, radius) - {viewer} else {}
  }

  method QueryVisiblePlayers(idx: GridSpatialHash, viewerPos: Pos, viewer: PlayerID, radius: real)
    returns (visible: seq<PlayerID>)
    requires idx.Valid()
    ensures NoDuplicates(visible)
    ensures forall id ::
      id in visible <==> id in VisibleAround(idx.Positions(), idx.maxWorldCoord, viewer, viewerPos, radius)
  {
    var ids := idx.QueryRadius(viewerPos, radius);
    visible := [];
    for i := 0 to |ids|
      invariant NoDuplicates(visible)
      invariant forall id :: id in visible <==> id in ids[..i] && id != viewer
    {
      assert ids[i] !in ids[..i];
      if ids[i] != viewer {
        visible := visible + [ids[i]];
      }
    }
  }
}
