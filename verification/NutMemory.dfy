/** The page table of the Nut processor in src/proc_nut.c: sixteen pages of 4096 words, each in up to five
    banks, of which one is active. */
module NutMemory {

  const PAGE_SIZE: nat := 4096
  const MAX_PAGE: nat := 16
  const MAX_BANK: nat := 5

  class Page {
    const ram: bool
    var writeEnable: bool
    const data: array<nat>

    constructor (ram: bool)
      ensures this.ram == ram && !writeEnable && fresh(data) && data.Length == PAGE_SIZE
              && forall i :: 0 <= i < PAGE_SIZE ==> data[i] == 0
    {
      this.ram, writeEnable := ram, false;
      data := new nat[PAGE_SIZE](_ => 0);
    }
  }

  class Table {
    const pages: array2<Page?>
    const active: array<nat>
    const group: array<int>

    /** Every page has its own words, and the active banks are banks. */
    ghost predicate Valid()
      reads this, pages, active, group
    {
      && pages.Length0 == MAX_BANK && pages.Length1 == MAX_PAGE && active.Length == MAX_PAGE && group.Length == MAX_PAGE
      && (forall p :: 0 <= p < MAX_PAGE ==> active[p] < MAX_BANK)
      && (forall b, p :: 0 <= b < MAX_BANK && 0 <= p < MAX_PAGE && pages[b, p] != null ==>
            pages[b, p].data.Length == PAGE_SIZE && pages[b, p].data != active)
      && (forall b, p, c, q :: (&& 0 <= b < MAX_BANK && 0 <= p < MAX_PAGE && 0 <= c < MAX_BANK && 0 <= q < MAX_PAGE
                                && pages[b, p] != null && pages[c, q] != null && (b, p) != (c, q))
                               ==> pages[b, p].data != pages[c, q].data)
    }

    /** The page an address selects, if there is one. */
    ghost function Selected(page: nat): Page?
      requires Valid() && page < MAX_PAGE
      reads this, pages, active, group
    {
      pages[active[page], page]
    }

    /** The word the processor sees at an address: zero where there is no page. */
    ghost function Word(page: nat, offset: nat): nat
      requires Valid() && page < MAX_PAGE && offset < PAGE_SIZE
      reads this, pages, active, group, if Selected(page) == null then {} else {Selected(page).data}
    {
      if Selected(page) == null then 0 else Selected(page).data[offset]
    }

    /** nut_get_ucode. */
    method GetUcode(addr: nat) returns (w: nat)
      requires Valid() && addr < 65536
      ensures w == Word(addr / PAGE_SIZE, addr % PAGE_SIZE)
    {
      var page := addr / PAGE_SIZE;
      var bank := active[page];
      var offset := addr % PAGE_SIZE;
      var m := pages[bank, page];
      if m != null {
        w := m.data[offset];
      } else {
        w := 0;
      }
    }

    /** nut_set_ucode: a word is written only to writable memory, and no other word the processor can see,
        in this bank or another, changes. */
    method SetUcode(addr: nat, w: nat)
      requires Valid() && addr < 65536
      modifies if Selected(addr / PAGE_SIZE) == null then {} else {Selected(addr / PAGE_SIZE).data}
      ensures Valid()
      ensures var m := Selected(addr / PAGE_SIZE);
              Word(addr / PAGE_SIZE, addr % PAGE_SIZE)
              == if m != null && m.ram && old(m.writeEnable) then w else old(Word(addr / PAGE_SIZE, addr % PAGE_SIZE))
      ensures forall b, p, i :: 0 <= b < MAX_BANK && 0 <= p < MAX_PAGE && 0 <= i < PAGE_SIZE && pages[b, p] != null
                               && (b, p, i) != (active[addr / PAGE_SIZE], addr / PAGE_SIZE, addr % PAGE_SIZE)
                ==> pages[b, p].data[i] == old(pages[b, p].data[i])
    {
      var page := addr / PAGE_SIZE;
      var bank := active[page];
      var offset := addr % PAGE_SIZE;
      var m := pages[bank, page];
      if m == null {
        return;
      }
      if !m.ram || !m.writeEnable {
        return;
      }
      m.data[offset] := w;
    }

    /** select_bank_page. */
    method SelectBankPage(page: nat, newBank: nat)
      requires Valid() && page < MAX_PAGE && newBank < MAX_BANK
      modifies active
      ensures Valid()
      ensures active[..] == if pages[newBank, page] != null then old(active[..])[page := newBank] else old(active[..])
    {
      if pages[newBank, page] != null {
        active[page] := newBank;
      }
    }

    /** Whether selecting a bank at an address switches a page: the page itself or, when it belongs to a
        bank group, every page of the group, as far as they have the bank. */
    predicate Switches(page: nat, newBank: nat, p: nat)
      requires pages.Length0 == MAX_BANK && pages.Length1 == MAX_PAGE && group.Length == MAX_PAGE
      requires page < MAX_PAGE && newBank < MAX_BANK && p < MAX_PAGE
      reads this, pages, group
    {
      pages[newBank, p] != null && if group[page] != 0 then group[p] == group[page] else p == page
    }

    /** The pages of a bank group switch together: it makes no difference at which of them a bank is selected. */
    lemma GroupSwitchesTogether(page: nat, other: nat, newBank: nat, p: nat)
      requires Valid() && page < MAX_PAGE && other < MAX_PAGE && newBank < MAX_BANK && p < MAX_PAGE
      requires group[page] == group[other] != 0
      ensures Switches(page, newBank, p) <==> Switches(other, newBank, p)
      ensures pages[newBank, other] != null ==> Switches(page, newBank, other)
    {
    }

    /** select_bank. */
    method SelectBank(addr: nat, newBank: nat)
      requires Valid() && addr < 65536 && newBank < MAX_BANK
      modifies active
      ensures Valid()
      ensures forall p :: 0 <= p < MAX_PAGE ==>
                active[p] == if Switches(addr / PAGE_SIZE, newBank, p) then newBank else old(active[p])
      ensures group[addr / PAGE_SIZE] == 0
              ==> forall p :: 0 <= p < MAX_PAGE && p != addr / PAGE_SIZE ==> active[p] == old(active[p])
      ensures group[addr / PAGE_SIZE] != 0
              ==> forall p :: 0 <= p < MAX_PAGE && group[p] != group[addr / PAGE_SIZE] ==> active[p] == old(active[p])
      ensures forall p :: 0 <= p < MAX_PAGE && pages[newBank, p] == null ==> active[p] == old(active[p])
      ensures pages[newBank, addr / PAGE_SIZE] != null ==> active[addr / PAGE_SIZE] == newBank
      ensures group[addr / PAGE_SIZE] != 0
              ==> forall p :: 0 <= p < MAX_PAGE && group[p] == group[addr / PAGE_SIZE] && pages[newBank, p] != null
                    ==> active[p] == newBank
    {
      var page := addr / PAGE_SIZE;
      var bankGroup := group[page];
      if bankGroup != 0 {
        for q := 0 to MAX_PAGE
          invariant Valid()
          invariant forall p :: 0 <= p < MAX_PAGE ==>
                      active[p] == if p < q && Switches(page, newBank, p) then newBank else old(active[p])
        {
          if group[q] == bankGroup && pages[newBank, q] != null {
            SelectBankPage(q, newBank);
          }
        }
      } else {
        SelectBankPage(page, newBank);
      }
    }

    /** Every page shows bank 0 or a bank it has. A HEPAX move can empty the active bank of a page. */
    ghost predicate ActiveBanksExist()
      requires Valid()
      reads this, pages, active, group
    {
      forall p :: 0 <= p < MAX_PAGE ==> active[p] == 0 || Selected(p) != null
    }

    /** op_enbank: the bank number is scattered over two bits of the word. No page is ever switched to a bank
        it does not have. */
    method OpEnbank(opcode: nat, prevPc: nat)
      requires Valid() && opcode < 1024 && prevPc < 65536
      modifies active
      ensures Valid() && (old(ActiveBanksExist()) ==> ActiveBanksExist())
      ensures forall p :: 0 <= p < MAX_PAGE && active[p] != old(active[p]) ==> Selected(p) != null
      ensures forall p :: 0 <= p < MAX_PAGE ==>
                active[p] == if Switches(prevPc / PAGE_SIZE, EnbankNumber(opcode), p) then EnbankNumber(opcode)
                             else old(active[p])
    {
      var bank := opcode / 64 % 2 * 2 + opcode / 128 % 2;
      SelectBank(prevPc, bank);
    }
  }

  /** The four bank select words in the order of their banks. */
  function EnbankNumber(opcode: nat): (b: nat)
    ensures b < 4
    ensures opcode == 0x100 ==> b == 0
    ensures opcode == 0x180 ==> b == 1
    ensures opcode == 0x140 ==> b == 2
    ensures opcode == 0x1c0 ==> b == 3
  {
    opcode / 64 % 2 * 2 + opcode / 128 % 2
  }
}
