/// Tip orientations of the Pyraminx (`norcina-pyraminx/src/piece/tip.rs`):
/// the same packed byte as the centres, kept as a separate type.
module PyraTips {
  import Types
  import opened PyraPieces
  import opened PyraMoves
  import PyraCenters

  datatype Tips = Tips(centers: PyraCenters.Centers) {
    /// `orientation_of`, delegated to the centres.
    function OrientationOf(v: Vertex): (o: Types.Orientation3)
      requires PyraCenters.Field(centers, v) < 3
      ensures o == PyraCenters.OrientationOf(AsCenters(), v)
    {
      PyraCenters.OrientationOf(centers, v)
    }

    /// `mov`, delegated to the centres.
    function Mov(m: CoreMove): (r: Tips)
      ensures r.AsCenters() == PyraCenters.Mov(AsCenters(), m)
    {
      Tips(PyraCenters.Mov(centers, m))
    }

    /// `as_centers`.
    function AsCenters(): PyraCenters.Centers {
      centers
    }
  }

  /// `SOLVED`: the solved centres.
  const TIPS_SOLVED: Tips := Tips(PyraCenters.CENTERS_SOLVED)

  /// The solved tips are the solved centres, every orientation 0.
  lemma TipsSolved(w: Vertex)
    ensures TIPS_SOLVED.AsCenters() == PyraCenters.CENTERS_SOLVED
    ensures TIPS_SOLVED.OrientationOf(w).U8() == 0
  {
    PyraCenters.SolvedFields(w);
  }

  /// A tip turn followed by the opposite turn of the same tip restores any
  /// valid tips.
  lemma TipsMovThenInverse(t: Tips, m: CoreMove)
    requires PyraCenters.Valid(t.AsCenters())
    ensures t.Mov(m).Mov(CoreInverse(m)) == t
  {
    PyraCenters.MovThenInverse(t.centers, m);
  }

  /// A tip turn rotates only its own tip, by one third.
  lemma TipsMovRotatesOneTip(t: Tips, m: CoreMove, w: Vertex)
    requires PyraCenters.Valid(t.AsCenters())
    ensures PyraCenters.Valid(t.Mov(m).AsCenters())
    ensures w == m.Vertex() ==>
      t.Mov(m).OrientationOf(w).U8() == (t.OrientationOf(w).U8() + (if m.Amount() == Single then 1 else 2)) % 3
    ensures w != m.Vertex() ==> t.Mov(m).OrientationOf(w) == t.OrientationOf(w)
  {
    PyraCenters.MovRotatesOneCentre(t.centers, m, w);
  }
}
