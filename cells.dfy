/** The four states of a cell and the per-cell rules of the two sub-phases:
    the mark rule applied by `feed` and the collapse applied by `lifeOn`. */
module Cells {

  /** A cell. The ordinals (Empty = 0, Alive = 1, Born = 2, Dying = 3) are
      the byte values the source stores and adds when it counts neighbours. */
  datatype Cell = Empty | Alive | Born | Dying

  /** The byte value of a cell. */
  function Ord(c: Cell): (n: nat)
    ensures n < 4
    ensures n == 0 <==> c == Empty
    ensures n == 1 <==> c == Alive
  {
    match c
    case Empty => 0
    case Alive => 1
    case Born => 2
    case Dying => 3
  }

  /** A steady cell: what `feed` accepts and what `lifeOn` produces. */
  predicate Steady(c: Cell) {
    c == Empty || c == Alive
  }

  /** The mark rule of `feed`: applied to a steady cell and its neighbour
      count, it flags a birth or a death and otherwise keeps the cell. */
  function Mark(c: Cell, nbrs: int): (r: Cell)
    requires Steady(c)
    ensures r == c || (c == Empty && r == Born) || (c == Alive && r == Dying)
    ensures r == Born <==> c == Empty && nbrs == 3
    ensures r == Dying <==> c == Alive && (nbrs < 2 || nbrs > 3)
  {
    match c
    case Empty => if nbrs == 3 then Born else Empty
    case Alive => if nbrs < 2 || nbrs > 3 then Dying else Alive
  }

  /** The collapse of `lifeOn`: transitional states take their final value. */
  function Resolve(c: Cell): (r: Cell)
    ensures Steady(r)
    ensures Steady(c) ==> r == c
    ensures r == Alive <==> c == Alive || c == Born
  {
    match c
    case Empty => Empty
    case Dying => Empty
    case Born => Alive
    case Alive => Alive
  }

  /** Classic Life (B3/S23): is the cell alive in the next generation? */
  predicate LifeRule(alive: bool, nbrs: int) {
    nbrs == 3 || (alive && nbrs == 2)
  }

  /** A mark sub-phase followed by a resolve sub-phase is one generation of
      classic Life: the transitional states only delay the rule by a tick. */
  lemma MarkThenResolveIsLife(c: Cell, nbrs: int)
    requires Steady(c)
    ensures Resolve(Mark(c, nbrs)) == (if LifeRule(c == Alive, nbrs) then Alive else Empty)
  {
  }
}
