/** The grid of src/siktacka/board.cc. */
module BoardObject {
  import opened Wire
  import opened Arenas

  class Board {
    const width: U32
    const height: U32
    const fields: array2<bool>

    predicate Valid() {
      fields.Length0 == width && fields.Length1 == height
    }

    ghost function Occupied(): set<Pos>
      requires Valid()
      reads fields
    {
      set x: U32, y: U32 | 0 <= x < width && 0 <= y < height && fields[x, y] :: Pos(x, y)
    }

    constructor (width: U32, height: U32)
      ensures Valid() && fresh(fields) && this.width == width && this.height == height
      ensures Occupied() == {}
    {
      this.width, this.height := width, height;
      fields := new bool[width, height]((_, _) => false);
      new;
      Clear();
    }

    method Clear()
      requires Valid()
      modifies fields
      ensures Occupied() == {}
    {
      var x := 0;
      while x < width
        invariant 0 <= x <= width
        invariant forall i, j | 0 <= i < x && 0 <= j < height :: !fields[i, j]
      {
        var y := 0;
        while y < height
          invariant 0 <= y <= height
          invariant forall i, j | 0 <= i < x && 0 <= j < height :: !fields[i, j]
          invariant forall j | 0 <= j < y :: !fields[x, j]
        {
          fields[x, y] := false;
          y := y + 1;
        }
        x := x + 1;
      }
    }

    method MarkOccupied(p: Pos)
      requires Valid() && p.x < width && p.y < height
      modifies fields
      ensures Occupied() == old(Occupied()) + {p}
    {
      fields[p.x, p.y] := true;
      forall q ensures q in Occupied() <==> q in old(Occupied()) || q == p {
        if q.x < width && q.y < height {
          assert fields[q.x, q.y] == (old(fields[q.x, q.y]) || q == p);
        }
      }
    }

    predicate IsEmpty(p: Pos)
      requires Valid()
      reads fields
      ensures IsEmpty(p) <==> p.x < width && p.y < height && p !in Occupied()
    {
      p.x < width && p.y < height && !fields[p.x, p.y]
    }
  }
}
