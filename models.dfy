/**
 * models/panel.go: the panel selector of the terminal UI. A Panel is a Go
 * `int` (64 bits here) naming one of four screen areas; Next and Prev move the
 * selection through a pointer receiver, using Go's truncating `%`, and Reset
 * returns it to the tabs.
 */
module Models {
  import opened GoNumerics

  const TabsPanel: Int64 := 0
  const LeftSidebarPanel: Int64 := 1
  const CentralPanel: Int64 := 2
  const RightSidebarPanel: Int64 := 3

  /** Panel.String: the name of each of the four panels, "?" for any other value. */
  function String(p: Int64): (name: string)
    ensures p == TabsPanel <==> name == "Tabs"
    ensures p == LeftSidebarPanel <==> name == "Left Sidebar"
    ensures p == CentralPanel <==> name == "Central"
    ensures p == RightSidebarPanel <==> name == "Right Sidebar"
    ensures !(0 <= p <= 3) <==> name == "?"
  {
    match p
    case 0 => "Tabs"
    case 1 => "Left Sidebar"
    case 2 => "Central"
    case 3 => "Right Sidebar"
    case _ => "?"
  }

  /** Panel.Int: the number underneath, unchanged. */
  function Int(p: Int64): (n: int)
    ensures n == p as int
  {
    p
  }

  /** A 64-bit wrap-around moves a number by a multiple of 2^64, hence of 4. */
  lemma WrapKeepsResidue(x: int)
    ensures (Wrap64(x) - x) % 4 == 0
  {
    var n := x + 0x8000_0000_0000_0000;
    var m := n % 0x1_0000_0000_0000_0000;
    var q := n / 0x1_0000_0000_0000_0000;
    assert Wrap64(x) == m - 0x8000_0000_0000_0000;
    assert n == q * 0x1_0000_0000_0000_0000 + m;
    var c := -q * 0x4000_0000_0000_0000;
    assert Wrap64(x) - x == 4 * c;
  }

  /** Go's remainder by 4 differs from the dividend by a multiple of 4. */
  lemma RemKeepsResidue(a: int)
    ensures (Rem(a, 4) - a) % 4 == 0
  {
    assert Rem(a, 4) - a == 4 * -Quot(a, 4);
  }

  /**
   * The value Next leaves: `(p + 1) % 4` with Go's remainder, 0 replaced by 4.
   * It is the number in 1..4 one above p modulo 4, except that below -1 a
   * negative remainder (-3..-1) survives; TabsPanel never comes back.
   */
  function NextPanel(p: Int64): (q: Int64)
    ensures q != TabsPanel
    ensures -4 < q <= 4
    ensures (q - (p + 1)) % 4 == 0
    ensures 0 <= p ==> 1 <= q <= 4
    ensures p < -1 ==> q < 0 || q == 4
  {
    var w := Wrap64(p + 1);
    WrapKeepsResidue(p + 1);
    RemKeepsResidue(w);
    var r := Rem(w, 4);
    if r == 0 then 4 else r
  }

  /**
   * The value Prev leaves: `(p - 1) % 4` with Go's remainder. It is one below p
   * modulo 4, in 0..3 from 1 upwards and in -3..0 from 0 downwards, except at
   * the least int64, where `p - 1` wraps to the greatest.
   */
  function PrevPanel(p: Int64): (q: Int64)
    ensures -4 < q < 4
    ensures (q - (p - 1)) % 4 == 0
    ensures 1 <= p ==> 0 <= q
    ensures -0x8000_0000_0000_0000 < p <= 0 ==> q <= 0
  {
    var w := Wrap64(p - 1);
    WrapKeepsResidue(p - 1);
    RemKeepsResidue(w);
    Rem(w, 4)
  }

  /** Next goes 0, 1, 2, 3 up by one, 3 to 4, which has no name, and 4 back to 1. */
  lemma NextTable()
    ensures NextPanel(TabsPanel) == LeftSidebarPanel
    ensures NextPanel(LeftSidebarPanel) == CentralPanel
    ensures NextPanel(CentralPanel) == RightSidebarPanel
    ensures NextPanel(RightSidebarPanel) == 4 && String(4) == "?"
    ensures NextPanel(4) == LeftSidebarPanel
  {
  }

  /** Prev goes 4, 3, 2, 1 down by one to 0, and 0 to -1, which has no name. */
  lemma PrevTable()
    ensures PrevPanel(4) == RightSidebarPanel
    ensures PrevPanel(RightSidebarPanel) == CentralPanel
    ensures PrevPanel(CentralPanel) == LeftSidebarPanel
    ensures PrevPanel(LeftSidebarPanel) == TabsPanel
    ensures PrevPanel(TabsPanel) == -1 && String(-1) == "?"
  {
  }

  /** The least int64 wraps around: Prev from it gives 3. */
  lemma PrevWrapsAtMinimum()
    ensures PrevPanel(-0x8000_0000_0000_0000) == RightSidebarPanel
  {
    var w := Wrap64(-0x8000_0000_0000_0000 - 1);
    assert w == 0x7FFF_FFFF_FFFF_FFFF;
  }

  /** Two numbers in 0..3 that agree modulo 4 are equal. */
  lemma SameResidue(a: int, b: int)
    requires 0 <= a < 4 && 0 <= b < 4
    requires (a - b) % 4 == 0
    ensures a == b
  {
  }

  /** Prev undoes Next on the four named panels. */
  lemma PrevUndoesNext(p: Int64)
    requires 0 <= p <= 3
    ensures PrevPanel(NextPanel(p)) == p
  {
    var q := NextPanel(p);
    SameResidue(q - 1, p);
    var r := PrevPanel(q);
    SameResidue(r, p);
  }

  /** From 4, Next then Prev gives TabsPanel, not 4. */
  lemma NextThenPrevFromFour()
    ensures PrevPanel(NextPanel(4)) == TabsPanel
  {
  }

  /** Four steps of Next from any of 1..4 come back to the start. */
  lemma NextCycles(p: Int64)
    requires 1 <= p <= 4
    ensures NextPanel(NextPanel(NextPanel(NextPanel(p)))) == p
  {
    NextTable();
  }

  /** The panel variable a model keeps and updates through its pointer. */
  class Panel {
    var value: Int64

    /** The zero value of a Panel: TabsPanel. */
    constructor()
      ensures value == TabsPanel
    {
      value := TabsPanel;
    }

    /** Panel.Next: the value becomes NextPanel of the old one. */
    method Next()
      modifies this
      ensures value == NextPanel(old(value))
      ensures value != TabsPanel
    {
      value := Wrap64(value + 1);
      value := Rem(value, 4);
      if value == 0 {
        value := 4;
      }
    }

    /** Panel.Prev: the value becomes PrevPanel of the old one. */
    method Prev()
      modifies this
      ensures value == PrevPanel(old(value))
    {
      value := Rem(Wrap64(value - 1), 4);
    }

    /** Panel.Reset: the value is TabsPanel whatever it was. */
    method Reset()
      modifies this
      ensures value == TabsPanel
    {
      value := TabsPanel;
    }
  }
}
