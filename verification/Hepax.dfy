/** ROM relocation by the HEPAX module, src/hepax.c: guarded moves in the page table of the 41C, with
    a hidden bank for the RAM page that the ROM banks cover at their home port. */
module Hepax {

  const MAX_BANK := 5
  const MAX_PAGE := 16
  const HIDDEN_BANK := 4
  const CELLS := 80

  class PageImage {
    const ram: bool
    var writeEnable: bool

    constructor (ram: bool)
      ensures this.ram == ram && !writeEnable
    {
      this.ram := ram;
      writeEnable := false;
    }
  }

  function Cell(bank: nat, page: nat): (c: nat)
    requires bank < MAX_BANK && page < MAX_PAGE
    ensures c < CELLS
  {
    MAX_PAGE * bank + page
  }

  /** The page a bank shows; null when none is allocated. */
  function At(t: seq<PageImage?>, bank: nat, page: nat): PageImage?
    requires |t| == CELLS && bank < MAX_BANK && page < MAX_PAGE
  {
    t[Cell(bank, page)]
  }

  // ---------- what the moves do to a table ----------

  /** One guarded move: refused unless the source is allocated and the destination is not. */
  function MoveOne(t: seq<PageImage?>, fromBank: nat, fromPage: nat, toBank: nat, toPage: nat): (r: seq<PageImage?>)
    requires |t| == CELLS && fromBank < MAX_BANK && fromPage < MAX_PAGE && toBank < MAX_BANK && toPage < MAX_PAGE
    ensures |r| == CELLS
  {
    if At(t, fromBank, fromPage) == null || At(t, toBank, toPage) != null then t
    else t[Cell(toBank, toPage) := At(t, fromBank, fromPage)][Cell(fromBank, fromPage) := null]
  }

  predicate Movable(t: seq<PageImage?>, fromPage: nat, toPage: nat)
    requires |t| == CELLS && fromPage < MAX_PAGE && toPage < MAX_PAGE
  {
    forall b :: 0 <= b < 4 ==> At(t, b, fromPage) != null && At(t, b, toPage) == null
  }

  function MoveBanks(t: seq<PageImage?>, n: nat, fromPage: nat, toPage: nat): (r: seq<PageImage?>)
    requires |t| == CELLS && n <= 4 && fromPage < MAX_PAGE && toPage < MAX_PAGE
    ensures |r| == CELLS
  {
    if n == 0 then t else MoveOne(MoveBanks(t, n - 1, fromPage, toPage), n - 1, fromPage, n - 1, toPage)
  }

  /** Port 1 has pages 8 and 9, every other port the two pages behind. */
  function HomePage(port: nat): (p: nat)
    requires 1 <= port <= 4
    ensures p < MAX_PAGE && p % 2 == 0 && (port == 1 ==> p == 8) && (port > 1 ==> p == HomePage(port - 1) + 2)
  {
    8 + 2 * (port - 1)
  }

  /** Page table and current ROM page. */
  datatype Placement = Placement(table: seq<PageImage?>, romPage: nat) {
    ghost predicate Ok() { |table| == CELLS && romPage < MAX_PAGE }
  }

  function Relocate(s: Placement, home: nat, page: nat): (r: Placement)
    requires s.Ok() && home < MAX_PAGE && page < MAX_PAGE
    ensures r.Ok()
  {
    if page == s.romPage then s
    else if page != home && !Movable(s.table, s.romPage, page) then s
    else
      var hid := if page == home then MoveOne(s.table, 0, page, HIDDEN_BANK, page) else s.table;
      var moved := MoveBanks(hid, 4, s.romPage, page);
      Placement(MoveOne(moved, HIDDEN_BANK, s.romPage, 0, s.romPage), page)
  }

  /** What can happen to the placement: a ROMBLK instruction, done or refused, or a reset. */
  datatype Event = Romblk(page: nat) | Reset

  function Next(s: Placement, home: nat, e: Event): (r: Placement)
    requires s.Ok() && home < MAX_PAGE && (e.Romblk? ==> e.page < MAX_PAGE)
    ensures r.Ok()
  {
    match e
    case Romblk(page) => Relocate(s, home, page)
    case Reset => Relocate(s, home, home)
  }

  ghost predicate Events(run: seq<Event>) {
    forall i :: 0 <= i < |run| ==> run[i].Romblk? ==> run[i].page < MAX_PAGE
  }

  function Run(s: Placement, home: nat, run: seq<Event>): (r: Placement)
    requires s.Ok() && home < MAX_PAGE && Events(run)
    ensures r.Ok()
  {
    if |run| == 0 then s else Next(Run(s, home, run[..|run| - 1]), home, run[|run| - 1])
  }

  // ---------- conservation, from any table at all ----------

  lemma MoveOneConserves(t: seq<PageImage?>, fromBank: nat, fromPage: nat, toBank: nat, toPage: nat)
    requires |t| == CELLS && fromBank < MAX_BANK && fromPage < MAX_PAGE && toBank < MAX_BANK && toPage < MAX_PAGE
    ensures multiset(MoveOne(t, fromBank, fromPage, toBank, toPage)) == multiset(t)
  {
    var i, j := Cell(fromBank, fromPage), Cell(toBank, toPage);
    if t[i] != null && t[j] == null {
      var u := t[j := t[i]];
      assert multiset(u) == multiset(t) - multiset{t[j]} + multiset{t[i]};
      assert u[i] == t[i];
      assert multiset(u[i := null]) == multiset(u) - multiset{u[i]} + multiset{null};
    }
  }

  lemma {:induction false} MoveBanksConserves(t: seq<PageImage?>, n: nat, fromPage: nat, toPage: nat)
    requires |t| == CELLS && n <= 4 && fromPage < MAX_PAGE && toPage < MAX_PAGE
    ensures multiset(MoveBanks(t, n, fromPage, toPage)) == multiset(t)
  {
    if n > 0 {
      MoveBanksConserves(t, n - 1, fromPage, toPage);
      MoveOneConserves(MoveBanks(t, n - 1, fromPage, toPage), n - 1, fromPage, n - 1, toPage);
    }
  }

  lemma RelocateConserves(s: Placement, home: nat, page: nat)
    requires s.Ok() && home < MAX_PAGE && page < MAX_PAGE
    ensures multiset(Relocate(s, home, page).table) == multiset(s.table)
  {
    MoveOneConserves(s.table, 0, page, HIDDEN_BANK, page);
    var hid := if page == home then MoveOne(s.table, 0, page, HIDDEN_BANK, page) else s.table;
    MoveBanksConserves(hid, 4, s.romPage, page);
    MoveOneConserves(MoveBanks(hid, 4, s.romPage, page), HIDDEN_BANK, s.romPage, 0, s.romPage);
  }

  /** No run loses or duplicates a page image, whatever the table was at the start. */
  lemma {:induction false} RunConserves(s: Placement, home: nat, run: seq<Event>)
    requires s.Ok() && home < MAX_PAGE && Events(run)
    ensures multiset(Run(s, home, run).table) == multiset(s.table)
  {
    if |run| > 0 {
      RunConserves(s, home, run[..|run| - 1]);
      var last := run[|run| - 1];
      RelocateConserves(Run(s, home, run[..|run| - 1]), home, if last.Romblk? then last.page else home);
    }
  }

  // ---------- where everything is ----------

  /** The start table with the ROM banks taken from home to another page, and what they covered uncovered. */
  function Relocated(t0: seq<PageImage?>, home: nat, page: nat): (r: seq<PageImage?>)
    requires |t0| == CELLS && home < MAX_PAGE && page < MAX_PAGE
    ensures |r| == CELLS
  {
    if page == home then t0
    else seq(CELLS, c requires 0 <= c < CELLS => RelocatedCell(t0, home, page, c / MAX_PAGE, c % MAX_PAGE))
  }

  function RelocatedCell(t0: seq<PageImage?>, home: nat, page: nat, b: nat, p: nat): PageImage?
    requires |t0| == CELLS && home < MAX_PAGE && page < MAX_PAGE && b < MAX_BANK && p < MAX_PAGE
  {
    if p == page && b < 4 then At(t0, b, home)
    else if p == home then if b == 0 then At(t0, HIDDEN_BANK, home) else null
    else At(t0, b, p)
  }

  lemma RelocatedAt(t0: seq<PageImage?>, home: nat, page: nat, b: nat, p: nat)
    requires |t0| == CELLS && home < MAX_PAGE && page < MAX_PAGE && b < MAX_BANK && p < MAX_PAGE && page != home
    ensures At(Relocated(t0, home, page), b, p) == RelocatedCell(t0, home, page, b, p)
  {
    assert Cell(b, p) / MAX_PAGE == b && Cell(b, p) % MAX_PAGE == p;
  }

  /** Two tables that show the same everywhere are the same table. */
  lemma SameEverywhere(t: seq<PageImage?>, u: seq<PageImage?>)
    requires |t| == CELLS && |u| == CELLS
    requires forall b, p :: 0 <= b < MAX_BANK && 0 <= p < MAX_PAGE ==> At(t, b, p) == At(u, b, p)
    ensures t == u
  {
    forall c | 0 <= c < CELLS
      ensures t[c] == u[c]
    {
      assert Cell(c / MAX_PAGE, c % MAX_PAGE) == c;
      assert At(t, c / MAX_PAGE, c % MAX_PAGE) == At(u, c / MAX_PAGE, c % MAX_PAGE);
    }
  }

  lemma MoveOneAt(t: seq<PageImage?>, fb: nat, fp: nat, tb: nat, tp: nat, b: nat, p: nat)
    requires |t| == CELLS && fb < MAX_BANK && fp < MAX_PAGE && tb < MAX_BANK && tp < MAX_PAGE && b < MAX_BANK
    requires p < MAX_PAGE
    ensures At(MoveOne(t, fb, fp, tb, tp), b, p)
            == if At(t, fb, fp) == null || At(t, tb, tp) != null then At(t, b, p)
               else if b == fb && p == fp then null else if b == tb && p == tp then At(t, fb, fp) else At(t, b, p)
  {
    assert Cell(b, p) == Cell(fb, fp) <==> b == fb && p == fp;
    assert Cell(b, p) == Cell(tb, tp) <==> b == tb && p == tp;
  }

  /** When every bank can move, the moves do not disturb each other. */
  lemma {:induction false} MoveBanksAt(t: seq<PageImage?>, n: nat, from: nat, to: nat, b: nat, p: nat)
    requires |t| == CELLS && n <= 4 && from < MAX_PAGE && to < MAX_PAGE && b < MAX_BANK && p < MAX_PAGE
    requires Movable(t, from, to)
    ensures At(MoveBanks(t, n, from, to), b, p)
            == if b < n && p == to then At(t, b, from) else if b < n && p == from then null else At(t, b, p)
  {
    if n > 0 {
      var m := n - 1;
      var u := MoveBanks(t, m, from, to);
      MoveBanksAt(t, m, from, to, b, p);
      MoveBanksAt(t, m, from, to, m, from);
      MoveBanksAt(t, m, from, to, m, to);
      MoveOneAt(u, m, from, m, to, b, p);
      assert At(t, m, from) != null;
      assert At(t, m, to) == null;
    }
  }

  /** The table is the start table with the ROM at its current page. */
  ghost predicate Placed(t0: seq<PageImage?>, home: nat, s: Placement)
    requires |t0| == CELLS && home < MAX_PAGE && s.Ok()
  {
    && s.table == Relocated(t0, home, s.romPage)
    && (s.romPage == home || Movable(t0, home, s.romPage))
  }

  /** No page that the ROM can reach from home has anything in its hidden bank. A caller can read this
      off the table before the first ROMBLK. */
  ghost predicate Restorable(t0: seq<PageImage?>, home: nat)
    requires |t0| == CELLS && home < MAX_PAGE
  {
    forall q :: 0 <= q < MAX_PAGE && q != home && Movable(t0, home, q) ==> At(t0, HIDDEN_BANK, q) == null
  }

  lemma LeaveHome(t0: seq<PageImage?>, home: nat, page: nat)
    requires |t0| == CELLS && home < MAX_PAGE && page < MAX_PAGE && page != home && Movable(t0, home, page)
    ensures Relocate(Placement(t0, home), home, page) == Placement(Relocated(t0, home, page), page)
  {
    var moved := MoveBanks(t0, 4, home, page);
    var last := MoveOne(moved, HIDDEN_BANK, home, 0, home);
    forall b, p | 0 <= b < MAX_BANK && 0 <= p < MAX_PAGE
      ensures At(last, b, p) == At(Relocated(t0, home, page), b, p)
    {
      RelocatedAt(t0, home, page, b, p);
      MoveOneAt(moved, HIDDEN_BANK, home, 0, home, b, p);
      MoveBanksAt(t0, 4, home, page, b, p);
      MoveBanksAt(t0, 4, home, page, HIDDEN_BANK, home);
      MoveBanksAt(t0, 4, home, page, 0, home);
    }
    SameEverywhere(last, Relocated(t0, home, page));
  }

  /** Away from home, exactly the pages that were reachable from home are reachable. */
  lemma ReachableFromAway(t0: seq<PageImage?>, home: nat, r: nat, page: nat)
    requires |t0| == CELLS && home < MAX_PAGE && r < MAX_PAGE && page < MAX_PAGE
    requires r != home && page != home && page != r && Movable(t0, home, r)
    ensures Movable(Relocated(t0, home, r), r, page) <==> Movable(t0, home, page)
  {
    var t := Relocated(t0, home, r);
    forall b | 0 <= b < 4
      ensures At(t, b, r) == At(t0, b, home) && At(t, b, page) == At(t0, b, page)
      ensures At(t0, b, home) != null
    {
      RelocatedAt(t0, home, r, b, r);
      RelocatedAt(t0, home, r, b, page);
    }
  }

  lemma MoveOn(t0: seq<PageImage?>, home: nat, r: nat, page: nat)
    requires |t0| == CELLS && home < MAX_PAGE && r < MAX_PAGE && page < MAX_PAGE
    requires r != home && page != home && page != r && Movable(t0, home, r) && Movable(t0, home, page)
    requires At(t0, HIDDEN_BANK, r) == null
    ensures Relocate(Placement(Relocated(t0, home, r), r), home, page) == Placement(Relocated(t0, home, page), page)
  {
    var t := Relocated(t0, home, r);
    ReachableFromAway(t0, home, r, page);
    var moved := MoveBanks(t, 4, r, page);
    var last := MoveOne(moved, HIDDEN_BANK, r, 0, r);
    RelocatedAt(t0, home, r, HIDDEN_BANK, r);
    MoveBanksAt(t, 4, r, page, HIDDEN_BANK, r);
    forall b, p | 0 <= b < MAX_BANK && 0 <= p < MAX_PAGE
      ensures At(last, b, p) == At(Relocated(t0, home, page), b, p)
    {
      RelocatedAt(t0, home, page, b, p);
      RelocatedAt(t0, home, r, b, p);
      RelocatedAt(t0, home, r, b, r);
      MoveOneAt(moved, HIDDEN_BANK, r, 0, r, b, p);
      MoveBanksAt(t, 4, r, page, b, p);
      assert b < 4 ==> At(t0, b, r) == null;
    }
    SameEverywhere(last, Relocated(t0, home, page));
  }

  lemma ComeHome(t0: seq<PageImage?>, home: nat, r: nat)
    requires |t0| == CELLS && home < MAX_PAGE && r < MAX_PAGE && r != home && Movable(t0, home, r)
    requires At(t0, HIDDEN_BANK, r) == null
    ensures Relocate(Placement(Relocated(t0, home, r), r), home, home) == Placement(t0, home)
  {
    var t := Relocated(t0, home, r);
    var hid := MoveOne(t, 0, home, HIDDEN_BANK, home);
    forall b, p | 0 <= b < MAX_BANK && 0 <= p < MAX_PAGE
      ensures At(hid, b, p) == if p == home then (if b == HIDDEN_BANK then At(t0, b, p) else null) else At(t, b, p)
    {
      RelocatedAt(t0, home, r, b, p);
      RelocatedAt(t0, home, r, 0, home);
      RelocatedAt(t0, home, r, HIDDEN_BANK, home);
      MoveOneAt(t, 0, home, HIDDEN_BANK, home, b, p);
    }
    forall b | 0 <= b < 4
      ensures At(hid, b, r) == At(t0, b, home) && At(t0, b, home) != null && At(hid, b, home) == null
    {
      RelocatedAt(t0, home, r, b, r);
    }
    assert Movable(hid, r, home);
    var moved := MoveBanks(hid, 4, r, home);
    var last := MoveOne(moved, HIDDEN_BANK, r, 0, r);
    MoveBanksAt(hid, 4, r, home, HIDDEN_BANK, r);
    RelocatedAt(t0, home, r, HIDDEN_BANK, r);
    forall b, p | 0 <= b < MAX_BANK && 0 <= p < MAX_PAGE
      ensures At(last, b, p) == At(t0, b, p)
    {
      RelocatedAt(t0, home, r, b, p);
      MoveOneAt(moved, HIDDEN_BANK, r, 0, r, b, p);
      MoveBanksAt(hid, 4, r, home, b, p);
      assert b < 4 ==> At(t0, b, r) == null;
    }
    SameEverywhere(last, t0);
  }

  lemma PlacedStep(t0: seq<PageImage?>, home: nat, s: Placement, page: nat)
    requires |t0| == CELLS && home < MAX_PAGE && s.Ok() && page < MAX_PAGE
    requires Restorable(t0, home) && Placed(t0, home, s)
    ensures Placed(t0, home, Relocate(s, home, page))
    ensures Relocate(s, home, page).romPage
            == if page == home || Movable(t0, home, page) then page else s.romPage
  {
    if page != s.romPage {
      if s.romPage == home {
        if Movable(t0, home, page) {
          LeaveHome(t0, home, page);
        }
      } else if page == home {
        ComeHome(t0, home, s.romPage);
      } else {
        ReachableFromAway(t0, home, s.romPage, page);
        if Movable(t0, home, page) {
          MoveOn(t0, home, s.romPage, page);
        }
      }
    }
  }

  /** After any run the table is determined by the start table and the current ROM page alone. */
  lemma {:induction false} RunPlaces(t0: seq<PageImage?>, home: nat, run: seq<Event>)
    requires |t0| == CELLS && home < MAX_PAGE && Events(run) && Restorable(t0, home)
    ensures Placed(t0, home, Run(Placement(t0, home), home, run))
  {
    if |run| > 0 {
      RunPlaces(t0, home, run[..|run| - 1]);
      var last := run[|run| - 1];
      PlacedStep(t0, home, Run(Placement(t0, home), home, run[..|run| - 1]), if last.Romblk? then last.page else home);
    }
  }

  ghost predicate ResetRestores(t0: seq<PageImage?>, home: nat, run: seq<Event>)
    requires |t0| == CELLS && home < MAX_PAGE && Events(run)
  {
    Run(Placement(t0, home), home, run + [Reset]) == Placement(t0, home)
  }

  /** A reset undoes every history, exactly for the tables in which nothing hides where the ROM can go. */
  lemma ResetRestoresIff(t0: seq<PageImage?>, home: nat)
    requires |t0| == CELLS && home < MAX_PAGE
    ensures (forall run | Events(run) :: ResetRestores(t0, home, run)) <==> Restorable(t0, home)
  {
    if Restorable(t0, home) {
      forall run | Events(run)
        ensures ResetRestores(t0, home, run)
      {
        RunPlaces(t0, home, run);
        assert (run + [Reset])[..|run|] == run;
        PlacedStep(t0, home, Run(Placement(t0, home), home, run), home);
      }
    } else {
      var q :| 0 <= q < MAX_PAGE && q != home && Movable(t0, home, q) && At(t0, HIDDEN_BANK, q) != null;
      HiddenPageSurfaces(t0, home, q);
    }
  }

  /** The ROM visits a page with something in its hidden bank; leaving it for home, the hidden page is
      brought to the front bank and stays there. Loading alone makes no such table (`LoadedRestorable`),
      unloading the ROM in front of a hidden page does (`UnloadedNotRestorable`). */
  lemma HiddenPageSurfaces(t0: seq<PageImage?>, home: nat, q: nat)
    requires |t0| == CELLS && home < MAX_PAGE && q < MAX_PAGE && q != home && Movable(t0, home, q)
    requires At(t0, HIDDEN_BANK, q) != null
    ensures Events([Romblk(q)]) && !ResetRestores(t0, home, [Romblk(q)])
  {
    var run := [Romblk(q)];
    LeaveHome(t0, home, q);
    assert run[..0] == [];
    assert Run(Placement(t0, home), home, run) == Placement(Relocated(t0, home, q), q);
    assert (run + [Reset])[..1] == run;
    var t := Relocated(t0, home, q);
    var hid := MoveOne(t, 0, home, HIDDEN_BANK, home);
    RelocatedAt(t0, home, q, HIDDEN_BANK, q);
    MoveOneAt(t, 0, home, HIDDEN_BANK, home, HIDDEN_BANK, q);
    var moved := MoveBanks(hid, 4, q, home);
    HiddenUntouched(hid, 4, q, home, q);
    MoveOneAt(moved, HIDDEN_BANK, q, 0, q, HIDDEN_BANK, q);
    MoveOneAt(moved, HIDDEN_BANK, q, 0, q, 0, q);
    var last := MoveOne(moved, HIDDEN_BANK, q, 0, q);
    assert At(last, HIDDEN_BANK, q) == null || At(last, 0, q) != null;
    assert At(t0, 0, q) == null;
  }

  lemma {:induction false} HiddenUntouched(t: seq<PageImage?>, n: nat, from: nat, to: nat, p: nat)
    requires |t| == CELLS && n <= 4 && from < MAX_PAGE && to < MAX_PAGE && p < MAX_PAGE
    ensures At(MoveBanks(t, n, from, to), HIDDEN_BANK, p) == At(t, HIDDEN_BANK, p)
  {
    if n > 0 {
      HiddenUntouched(t, n - 1, from, to, p);
      MoveOneAt(MoveBanks(t, n - 1, from, to), n - 1, from, n - 1, to, HIDDEN_BANK, p);
    }
  }

  /** Wherever the ROM is, its four banks are the ones that started at home. */
  lemma RomBanksFollow(t0: seq<PageImage?>, home: nat, run: seq<Event>, b: nat)
    requires |t0| == CELLS && home < MAX_PAGE && Events(run) && Restorable(t0, home) && b < 4
    ensures var s := Run(Placement(t0, home), home, run); At(s.table, b, s.romPage) == At(t0, b, home)
  {
    RunPlaces(t0, home, run);
    var s := Run(Placement(t0, home), home, run);
    if s.romPage != home {
      RelocatedAt(t0, home, s.romPage, b, s.romPage);
    }
  }

  /** The page the write-protect toggle addresses. */
  function WriteProtectTarget(s: Placement, ramPage: nat): PageImage?
    requires s.Ok() && ramPage < MAX_PAGE
  {
    At(s.table, if ramPage == s.romPage then HIDDEN_BANK else 0, ramPage)
  }

  /** The toggle addresses the same image before and after any run: the RAM at the home page whether the
      ROM covers it or not, and at a page the ROM now covers nothing. */
  lemma WriteProtectTargetStable(t0: seq<PageImage?>, home: nat, run: seq<Event>, ramPage: nat)
    requires |t0| == CELLS && home < MAX_PAGE && ramPage < MAX_PAGE && Events(run) && Restorable(t0, home)
    ensures var s := Run(Placement(t0, home), home, run);
            WriteProtectTarget(s, ramPage)
            == if ramPage == home then At(t0, HIDDEN_BANK, home)
               else if ramPage == s.romPage then null else At(t0, 0, ramPage)
  {
    RunPlaces(t0, home, run);
    var s := Run(Placement(t0, home), home, run);
    if s.romPage != home {
      RelocatedAt(t0, home, s.romPage, if ramPage == s.romPage then HIDDEN_BANK else 0, ramPage);
    }
  }

  /** The restore of a saved ROM page, from a table with the ROM at home, rebuilds the saved placement. */
  lemma RestoreRebuilds(t0: seq<PageImage?>, home: nat, run: seq<Event>)
    requires |t0| == CELLS && home < MAX_PAGE && Events(run) && Restorable(t0, home)
    ensures var saved := Run(Placement(t0, home), home, run);
            Relocate(Placement(t0, home), home, saved.romPage) == saved
  {
    RunPlaces(t0, home, run);
    var saved := Run(Placement(t0, home), home, run);
    if saved.romPage != home {
      LeaveHome(t0, home, saved.romPage);
    }
  }

  // ---------- how tables come about ----------

  /** A page image of a module file, and where it goes. */
  datatype Loaded = Loaded(bank: nat, page: nat, image: PageImage)

  /** A RAM page for bank 0 of a page that is already there goes into the hidden bank; a page whose place is
      taken is not loaded. */
  function Load(t: seq<PageImage?>, l: Loaded): (r: seq<PageImage?>)
    requires |t| == CELLS && l.bank < 4 && l.page < MAX_PAGE
    ensures |r| == CELLS
  {
    var bank := if l.bank == 0 && l.image.ram && At(t, 0, l.page) != null then HIDDEN_BANK else l.bank;
    if At(t, bank, l.page) != null then t else t[Cell(bank, l.page) := l.image]
  }

  ghost predicate Loads(loads: seq<Loaded>) {
    forall i :: 0 <= i < |loads| ==> loads[i].bank < 4 && loads[i].page < MAX_PAGE
  }

  function EmptyTable(): (r: seq<PageImage?>)
    ensures |r| == CELLS && forall i :: 0 <= i < CELLS ==> r[i] == null
  {
    seq(CELLS, _ => null)
  }

  function LoadAll(loads: seq<Loaded>): (r: seq<PageImage?>)
    requires Loads(loads)
    ensures |r| == CELLS
  {
    if |loads| == 0 then EmptyTable() else Load(LoadAll(loads[..|loads| - 1]), loads[|loads| - 1])
  }

  /** Pages are hidden only behind a page in bank 0. */
  ghost predicate HiddenBehind(t: seq<PageImage?>)
    requires |t| == CELLS
  {
    forall p :: 0 <= p < MAX_PAGE && At(t, HIDDEN_BANK, p) != null ==> At(t, 0, p) != null
  }

  lemma LoadKeepsHidden(t: seq<PageImage?>, l: Loaded)
    requires |t| == CELLS && l.bank < 4 && l.page < MAX_PAGE && HiddenBehind(t)
    ensures HiddenBehind(Load(t, l))
  {
    forall p | 0 <= p < MAX_PAGE && At(Load(t, l), HIDDEN_BANK, p) != null
      ensures At(Load(t, l), 0, p) != null
    {
      assert At(t, HIDDEN_BANK, p) != null ==> At(t, 0, p) != null;
      assert Cell(0, p) != Cell(HIDDEN_BANK, l.page);
    }
  }

  /** Whatever modules have been loaded, nothing is hidden where the ROM can go, so that a reset undoes every
      history. */
  lemma {:induction false} LoadedRestorable(loads: seq<Loaded>, home: nat)
    requires Loads(loads) && home < MAX_PAGE
    ensures HiddenBehind(LoadAll(loads)) && Restorable(LoadAll(loads), home)
  {
    if |loads| > 0 {
      LoadedRestorable(loads[..|loads| - 1], home);
      LoadKeepsHidden(LoadAll(loads[..|loads| - 1]), loads[|loads| - 1]);
    }
  }

  // ---------- loading while the ROM is away ----------

  /** The bank that a page goes into. */
  function LoadBank(t: seq<PageImage?>, l: Loaded): (b: nat)
    requires |t| == CELLS && l.bank < 4 && l.page < MAX_PAGE
    ensures b < MAX_BANK
  {
    if l.bank == 0 && l.image.ram && At(t, 0, l.page) != null then HIDDEN_BANK else l.bank
  }

  lemma LoadAt(t: seq<PageImage?>, l: Loaded, b: nat, p: nat)
    requires |t| == CELLS && l.bank < 4 && l.page < MAX_PAGE && b < MAX_BANK && p < MAX_PAGE
    ensures At(Load(t, l), b, p)
            == if b == LoadBank(t, l) && p == l.page && At(t, b, p) == null then l.image else At(t, b, p)
  {
    assert Cell(b, p) == Cell(LoadBank(t, l), l.page) <==> b == LoadBank(t, l) && p == l.page;
  }

  /** Whether it makes no difference that a page is loaded before the reset that brings the ROM home from
      page r, instead of after it. */
  predicate Commutes(t: seq<PageImage?>, home: nat, r: nat, l: Loaded)
    requires |t| == CELLS && home < MAX_PAGE
  {
    if l.page == r then l.bank == 0 && l.image.ram
    else if l.page == home then l.bank == 0 && (l.image.ram <==> At(t, 0, home) == null)
    else true
  }

  function Home(t: seq<PageImage?>, home: nat, r: nat): (u: seq<PageImage?>)
    requires |t| == CELLS && home < MAX_PAGE && r < MAX_PAGE
    ensures |u| == CELLS
  {
    Relocate(Placement(t, r), home, home).table
  }

  /** What a reset does to a cell, when no bank of the ROM is refused. */
  lemma HomeAt(t: seq<PageImage?>, home: nat, r: nat, b: nat, p: nat)
    requires |t| == CELLS && home < MAX_PAGE && r < MAX_PAGE && r != home && b < MAX_BANK && p < MAX_PAGE
    requires forall c :: 0 <= c < 4 ==> At(t, c, r) != null && (c > 0 ==> At(t, c, home) == null)
    requires At(t, 0, home) == null || At(t, HIDDEN_BANK, home) == null
    ensures At(Home(t, home, r), b, p)
            == if p == home then
                 if b < 4 then At(t, b, r) else if At(t, 0, home) != null then At(t, 0, home) else At(t, b, p)
               else if p == r then
                 if b == 0 then At(t, HIDDEN_BANK, r) else null
               else At(t, b, p)
  {
    var hid := MoveOne(t, 0, home, HIDDEN_BANK, home);
    MoveOneAt(t, 0, home, HIDDEN_BANK, home, b, p);
    forall c | 0 <= c < 4
      ensures At(hid, c, r) != null && At(hid, c, home) == null && At(hid, c, r) == At(t, c, r)
    {
      MoveOneAt(t, 0, home, HIDDEN_BANK, home, c, r);
      MoveOneAt(t, 0, home, HIDDEN_BANK, home, c, home);
    }
    assert Movable(hid, r, home);
    var moved := MoveBanks(hid, 4, r, home);
    MoveOneAt(t, 0, home, HIDDEN_BANK, home, HIDDEN_BANK, r);
    MoveBanksAt(hid, 4, r, home, HIDDEN_BANK, r);
    MoveBanksAt(hid, 4, r, home, 0, r);
    MoveBanksAt(hid, 4, r, home, b, p);
    MoveOneAt(moved, HIDDEN_BANK, r, 0, r, b, p);
    hide MoveOne, MoveBanks, At, Movable;
  }

  /** A cell at home that is taken in one of the banks keeps what it holds. */
  lemma {:induction false} TakenStays(t: seq<PageImage?>, n: nat, from: nat, to: nat, b: nat)
    requires |t| == CELLS && n <= 4 && from < MAX_PAGE && to < MAX_PAGE && from != to && b < MAX_BANK
    requires At(t, b, to) != null
    ensures At(MoveBanks(t, n, from, to), b, to) == At(t, b, to)
  {
    if n > 0 {
      TakenStays(t, n - 1, from, to, b);
      MoveOneAt(MoveBanks(t, n - 1, from, to), n - 1, from, n - 1, to, b, to);
    }
  }

  lemma HomeTaken(t: seq<PageImage?>, home: nat, r: nat, b: nat)
    requires |t| == CELLS && home < MAX_PAGE && r < MAX_PAGE && r != home && 0 < b < MAX_BANK && At(t, b, home) != null
    ensures At(Home(t, home, r), b, home) == At(t, b, home)
  {
    var hid := MoveOne(t, 0, home, HIDDEN_BANK, home);
    MoveOneAt(t, 0, home, HIDDEN_BANK, home, b, home);
    TakenStays(hid, 4, r, home, b);
    MoveOneAt(MoveBanks(hid, 4, r, home), HIDDEN_BANK, r, 0, r, b, home);
    hide MoveOne, MoveBanks, At;
  }

  /** The ROM is at page r, away from home, in a table that came about from t0; the image is a new one. */
  ghost predicate Away(t0: seq<PageImage?>, home: nat, r: nat, l: Loaded)
    requires |t0| == CELLS
  {
    && home < MAX_PAGE && r < MAX_PAGE && r != home && l.bank < 4 && l.page < MAX_PAGE
    && Movable(t0, home, r) && At(t0, HIDDEN_BANK, r) == null
    && forall b, p :: 0 <= b < MAX_BANK && 0 <= p < MAX_PAGE ==> At(t0, b, p) != l.image
  }

  lemma AwayAt(t0: seq<PageImage?>, home: nat, r: nat, l: Loaded, b: nat, p: nat)
    requires |t0| == CELLS && Away(t0, home, r, l) && b < MAX_BANK && p < MAX_PAGE
    ensures At(Relocated(t0, home, r), b, p) == RelocatedCell(t0, home, r, b, p)
    ensures b < 4 ==> At(t0, b, home) != null && At(t0, b, r) == null
    ensures At(t0, b, p) != l.image
  {
    RelocatedAt(t0, home, r, b, p);
    hide At, Relocated;
  }

  lemma LoadCommutes(t0: seq<PageImage?>, home: nat, r: nat, l: Loaded)
    requires |t0| == CELLS && Away(t0, home, r, l) && Commutes(Relocated(t0, home, r), home, r, l)
    ensures Home(Load(Relocated(t0, home, r), l), home, r) == Load(t0, l)
  {
    var t := Relocated(t0, home, r);
    forall b, p | 0 <= b < MAX_BANK && 0 <= p < MAX_PAGE
      ensures At(Home(Load(t, l), home, r), b, p) == At(Load(t0, l), b, p)
    {
      LoadedCell(t0, home, r, l, b, p);
    }
    SameEverywhere(Home(Load(t, l), home, r), Load(t0, l));
  }

  /** A cell after loading while the ROM is away. */
  lemma CellLoaded(t0: seq<PageImage?>, home: nat, r: nat, l: Loaded, b: nat, p: nat)
    requires |t0| == CELLS && Away(t0, home, r, l) && b < MAX_BANK && p < MAX_PAGE
    ensures var t := Relocated(t0, home, r);
            && At(t, b, p) == RelocatedCell(t0, home, r, b, p)
            && At(Load(t, l), b, p)
               == if b == LoadBank(t, l) && p == l.page && At(t, b, p) == null then l.image else At(t, b, p)
    ensures b < 4 ==> At(t0, b, home) != null && At(t0, b, r) == null
  {
    hide *;
    AwayAt(t0, home, r, l, b, p);
    AwayRanges(t0, home, r, l);
    LoadAt(Relocated(t0, home, r), l, b, p);
  }

  lemma AwayRanges(t0: seq<PageImage?>, home: nat, r: nat, l: Loaded)
    requires |t0| == CELLS && Away(t0, home, r, l)
    ensures home < MAX_PAGE && r < MAX_PAGE && r != home && l.bank < 4 && l.page < MAX_PAGE
  {
  }

  /** A reset finds all of the ROM, and no bank of it refused at home. */
  lemma LoadedRomMoves(t0: seq<PageImage?>, home: nat, r: nat, l: Loaded)
    requires |t0| == CELLS && Away(t0, home, r, l) && Commutes(Relocated(t0, home, r), home, r, l)
    ensures var u := Load(Relocated(t0, home, r), l);
            && (forall c :: 0 <= c < 4 ==> At(u, c, r) != null && (c > 0 ==> At(u, c, home) == null))
            && (At(u, 0, home) == null || At(u, HIDDEN_BANK, home) == null)
  {
    hide Load, At, Relocated, Movable;
    var u := Load(Relocated(t0, home, r), l);
    CellLoaded(t0, home, r, l, 0, home);
    CellLoaded(t0, home, r, l, HIDDEN_BANK, home);
    forall c | 0 <= c < 4
      ensures At(u, c, r) != null && (c > 0 ==> At(u, c, home) == null)
    {
      CellLoaded(t0, home, r, l, c, r);
      CellLoaded(t0, home, r, l, c, home);
    }
  }

  lemma LoadedCell(t0: seq<PageImage?>, home: nat, r: nat, l: Loaded, b: nat, p: nat)
    requires |t0| == CELLS && Away(t0, home, r, l) && Commutes(Relocated(t0, home, r), home, r, l)
    requires b < MAX_BANK && p < MAX_PAGE
    ensures At(Home(Load(Relocated(t0, home, r), l), home, r), b, p) == At(Load(t0, l), b, p)
  {
    hide Load, At, Relocated, Home, Movable;
    LoadAt(t0, l, b, p);
    LoadedRomMoves(t0, home, r, l);
    HomeAt(Load(Relocated(t0, home, r), l), home, r, b, p);
    CellLoaded(t0, home, r, l, b, p);
    CellLoaded(t0, home, r, l, b, r);
    CellLoaded(t0, home, r, l, b, home);
    CellLoaded(t0, home, r, l, 0, home);
    CellLoaded(t0, home, r, l, HIDDEN_BANK, home);
    CellLoaded(t0, home, r, l, HIDDEN_BANK, r);
    CellLoaded(t0, home, r, l, 0, r);
    CellLoaded(t0, home, r, l, 0, l.page);
  }

  lemma LoadDiffers(t0: seq<PageImage?>, home: nat, r: nat, l: Loaded)
    requires |t0| == CELLS && Away(t0, home, r, l) && !Commutes(Relocated(t0, home, r), home, r, l)
    ensures Home(Load(Relocated(t0, home, r), l), home, r) != Load(t0, l)
  {
    var t := Relocated(t0, home, r);
    AwayAt(t0, home, r, l, l.bank, l.page);
    AwayAt(t0, home, r, l, 0, home);
    AwayAt(t0, home, r, l, 0, r);
    AwayAt(t0, home, r, l, HIDDEN_BANK, home);
    LoadAt(t, l, l.bank, l.page);
    LoadAt(t0, l, l.bank, l.page);
    LoadAt(t0, l, HIDDEN_BANK, home);
    if l.page == r {
      assert Load(t, l) == t;
      ComeHome(t0, home, r);
      assert At(Load(t0, l), l.bank, r) == l.image;
    } else if l.bank > 0 {
      HomeTaken(Load(t, l), home, r, l.bank);
    } else if l.image.ram {
      LoadAt(t, l, HIDDEN_BANK, home);
      HomeTaken(Load(t, l), home, r, HIDDEN_BANK);
    } else {
      forall c | 0 <= c < 4
        ensures At(Load(t, l), c, r) != null && (c > 0 ==> At(Load(t, l), c, home) == null)
      {
        AwayAt(t0, home, r, l, c, r);
        AwayAt(t0, home, r, l, c, home);
        LoadAt(t, l, c, r);
        LoadAt(t, l, c, home);
      }
      LoadAt(t, l, HIDDEN_BANK, home);
      HomeAt(Load(t, l), home, r, HIDDEN_BANK, home);
    }
  }

  /** Loading a page while the ROM is away and then resetting is the same as resetting and then loading it,
      exactly when the page is neither the home page nor the one the ROM is at, but for a RAM page for bank 0
      where the ROM is, for bank 0 at home if nothing shows there, and for a ROM page that is refused there. */
  lemma LoadCommutesIff(t0: seq<PageImage?>, home: nat, r: nat, l: Loaded)
    requires |t0| == CELLS && Away(t0, home, r, l)
    ensures Home(Relocated(t0, home, r), home, r) == t0
    ensures Home(Load(Relocated(t0, home, r), l), home, r) == Load(t0, l)
            <==> Commutes(Relocated(t0, home, r), home, r, l)
  {
    ComeHome(t0, home, r);
    hide Load, Relocated, Movable;
    if Commutes(Relocated(t0, home, r), home, r, l) {
      LoadCommutes(t0, home, r, l);
    } else {
      LoadDiffers(t0, home, r, l);
    }
  }

  /** Taking the pages of a module out again leaves what was hidden behind them where it is. */
  function Unloaded(t: seq<PageImage?>, pages: set<PageImage>): (r: seq<PageImage?>)
    requires |t| == CELLS
    ensures |r| == CELLS
  {
    seq(CELLS, i requires 0 <= i < CELLS => if t[i] in pages then null else t[i])
  }

  /** The ROM banks at home, a ROM at another page and a RAM page behind it; the ROM is then unloaded. */
  lemma UnloadedNotRestorable(bank: seq<PageImage>, rom: PageImage, ram: PageImage, home: nat, q: nat)
    requires |bank| == 4 && home < MAX_PAGE && q < MAX_PAGE && home != q && ram.ram && !rom.ram
    requires rom != ram && (forall b :: 0 <= b < 4 ==> bank[b] != rom && !bank[b].ram)
    ensures var loads := [Loaded(0, home, bank[0]), Loaded(1, home, bank[1]), Loaded(2, home, bank[2]),
                          Loaded(3, home, bank[3]), Loaded(0, q, rom), Loaded(0, q, ram)];
            Loads(loads) && !Restorable(Unloaded(LoadAll(loads), {rom}), home)
  {
    var loads := [Loaded(0, home, bank[0]), Loaded(1, home, bank[1]), Loaded(2, home, bank[2]),
                  Loaded(3, home, bank[3]), Loaded(0, q, rom), Loaded(0, q, ram)];
    var t := EmptyTable()[Cell(0, home) := bank[0]][Cell(1, home) := bank[1]]
             [Cell(2, home) := bank[2]][Cell(3, home) := bank[3]];
    FourBanks(bank, home, loads);
    assert loads[..5][..4] == loads[..4] && loads[..5][4] == loads[4];
    var loaded := t[Cell(0, q) := rom][Cell(HIDDEN_BANK, q) := ram];
    assert LoadAll(loads[..5]) == t[Cell(0, q) := rom];
    assert LoadAll(loads) == loaded;
    var u := Unloaded(loaded, {rom});
    assert At(u, HIDDEN_BANK, q) == ram;
    assert Movable(u, home, q);
  }

  lemma FourBanks(bank: seq<PageImage>, home: nat, loads: seq<Loaded>)
    requires |bank| == 4 && home < MAX_PAGE && |loads| >= 4
    requires forall b :: 0 <= b < 4 ==> loads[b] == Loaded(b, home, bank[b]) && !bank[b].ram
    ensures Loads(loads[..4])
    ensures LoadAll(loads[..4])
            == EmptyTable()[Cell(0, home) := bank[0]][Cell(1, home) := bank[1]]
               [Cell(2, home) := bank[2]][Cell(3, home) := bank[3]]
  {
    var e := EmptyTable();
    assert loads[..0] == [] && loads[..1][..0] == [];
    assert loads[..2][..1] == loads[..1] && loads[..3][..2] == loads[..2] && loads[..4][..3] == loads[..3];
    assert LoadAll(loads[..1]) == e[Cell(0, home) := bank[0]];
    assert LoadAll(loads[..2]) == e[Cell(0, home) := bank[0]][Cell(1, home) := bank[1]];
    assert LoadAll(loads[..3]) == e[Cell(0, home) := bank[0]][Cell(1, home) := bank[1]][Cell(2, home) := bank[2]];
  }

  // ---------- the module ----------

  class Module {
    const pages: array<PageImage?>
    const port: nat
    var romPage: nat

    ghost predicate Valid()
      reads this
    {
      pages.Length == CELLS && 1 <= port <= 4 && romPage < MAX_PAGE
    }

    ghost function State(): (s: Placement)
      requires Valid()
      reads this, pages
      ensures s.Ok()
    {
      Placement(pages[..], romPage)
    }

    /** Installed with the ROM at the page of its port. */
    constructor (pages: array<PageImage?>, port: nat)
      requires pages.Length == CELLS && 1 <= port <= 4
      ensures Valid() && this.pages == pages && this.port == port
      ensures State() == Placement(pages[..], HomePage(port))
    {
      this.pages := pages;
      this.port := port;
      romPage := 8 + 2 * (port - 1);
    }

    method MoveRomPage(fromPage: nat, fromBank: nat, toPage: nat, toBank: nat, preflight: bool) returns (ok: bool)
      requires Valid() && fromBank < MAX_BANK && fromPage < MAX_PAGE && toBank < MAX_BANK && toPage < MAX_PAGE
      modifies pages
      ensures ok == (old(At(pages[..], fromBank, fromPage)) != null && old(At(pages[..], toBank, toPage)) == null)
      ensures pages[..] == if preflight then old(pages[..])
                           else old(MoveOne(pages[..], fromBank, fromPage, toBank, toPage))
    {
      if pages[Cell(fromBank, fromPage)] == null {
        return false;
      }
      if pages[Cell(toBank, toPage)] != null {
        return false;
      }
      if preflight {
        return true;
      }
      pages[Cell(toBank, toPage)] := pages[Cell(fromBank, fromPage)];
      pages[Cell(fromBank, fromPage)] := null;
      return true;
    }

    method MoveRomToPage(newPage: nat) returns (ok: bool)
      requires Valid() && newPage < MAX_PAGE
      modifies pages, this`romPage
      ensures Valid() && State() == Relocate(old(State()), HomePage(port), newPage)
      ensures !ok ==> State() == old(State())
      ensures ok ==> romPage == newPage != old(romPage)
    {
      if newPage == romPage {
        return false;
      }
      ghost var t := pages[..];
      if newPage == 8 + 2 * (port - 1) {
        var _ := MoveRomPage(newPage, 0, newPage, HIDDEN_BANK, false);
      } else {
        for bank := 0 to 4
          invariant Valid() && romPage == old(romPage) && pages[..] == t
          invariant forall b :: 0 <= b < bank ==> At(t, b, romPage) != null && At(t, b, newPage) == null
        {
          var can := MoveRomPage(romPage, bank, newPage, bank, true);
          if !can {
            return false;
          }
        }
      }
      ghost var hid := pages[..];
      for bank := 0 to 4
        invariant Valid() && romPage == old(romPage)
        invariant pages[..] == MoveBanks(hid, bank, romPage, newPage)
      {
        var _ := MoveRomPage(romPage, bank, newPage, bank, false);
      }
      if pages[Cell(HIDDEN_BANK, romPage)] != null {
        var _ := MoveRomPage(romPage, HIDDEN_BANK, romPage, 0, false);
      }
      romPage := newPage;
      return true;
    }

    /** The ROMBLK instruction: the page number is the low digit of C. */
    method OpMoveHepaxRom(c0: nat)
      requires Valid() && c0 < MAX_PAGE
      modifies pages, this`romPage
      ensures Valid() && State() == Next(old(State()), HomePage(port), Romblk(c0))
    {
      var _ := MoveRomToPage(c0);
    }

    method ResetModule()
      requires Valid()
      modifies pages, this`romPage
      ensures Valid() && State() == Next(old(State()), HomePage(port), Reset)
    {
      var page := 8 + 2 * (port - 1);
      if romPage != page {
        var _ := MoveRomToPage(page);
      }
    }

    /** The setter used by a state restore. */
    method RestoreRomPage(value: nat)
      requires Valid() && value < MAX_PAGE
      modifies pages, this`romPage
      ensures Valid() && State() == Relocate(Placement(old(pages[..]), HomePage(port)), HomePage(port), value)
    {
      romPage := value;
      var restored := romPage;
      romPage := 8 + 2 * (port - 1);
      var _ := MoveRomToPage(restored);
    }

    /** The WPTOG instruction. */
    method WriteProtectToggle(c0: nat)
      requires Valid() && c0 < MAX_PAGE
      modifies set x | x in pages[..] && x != null :: x`writeEnable
      ensures var target := WriteProtectTarget(State(), c0);
              forall x | x in pages[..] && x != null ::
                x.writeEnable == if x == target && x.ram then !old(x.writeEnable) else old(x.writeEnable)
    {
      var bank := 0;
      if c0 == romPage {
        bank := HIDDEN_BANK;
      }
      var page := pages[Cell(bank, c0)];
      if page == null || !page.ram {
        return;
      }
      assert page in pages[..];
      page.writeEnable := !page.writeEnable;
    }
  }
}
