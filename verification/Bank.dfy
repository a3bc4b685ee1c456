/**
  The bank module as its callers see it: balances per denomination and account, and supply.
  The code is outside the repository; this is the contract the burn and validator modules
  rely on.
 */
module Bank {
  import opened Basics
  import opened Ledger

  type Addr = bytes

  const BOND_DENOM := "alyth"

  /** Balances are kept per denomination; a zero balance is not stored. */
  datatype Bank = Bank(ledgers: map<string, map<Addr, int>>, supply: map<string, int>)

  function LedgerOf(b: Bank, denom: string): map<Addr, int> {
    if denom in b.ledgers then b.ledgers[denom] else map[]
  }

  function Balance(b: Bank, denom: string, a: Addr): int {
    Get(LedgerOf(b, denom), a)
  }

  function Supply(b: Bank, denom: string): int {
    Get(b.supply, denom)
  }

  function Put(m: map<Addr, int>, a: Addr, n: int): map<Addr, int> {
    if n == 0 then m - {a} else m[a := n]
  }

  function SetBalance(b: Bank, denom: string, a: Addr, n: int): Bank {
    b.(ledgers := b.ledgers[denom := Put(LedgerOf(b, denom), a, n)])
  }

  /** n coins move from one account to another. */
  function Sent(b: Bank, denom: string, from: Addr, to: Addr, n: int): Bank {
    var b' := SetBalance(b, denom, from, Balance(b, denom, from) - n);
    SetBalance(b', denom, to, Balance(b', denom, to) + n)
  }

  /** n coins of an account cease to exist. */
  function Burnt(b: Bank, denom: string, a: Addr, n: int): Bank {
    SetBalance(b, denom, a, Balance(b, denom, a) - n).(supply := b.supply[denom := Supply(b, denom) - n])
  }

  function Minted(b: Bank, denom: string, a: Addr, n: int): Bank {
    Burnt(b, denom, a, -n)
  }

  ghost predicate ValidLedger(m: map<Addr, int>, supply: int) {
    (forall a | a in m :: m[a] > 0) && Sum(m) == supply
  }

  /** No balance is zero or negative, and balances add up to the supply. */
  ghost predicate ValidBank(b: Bank) {
    forall denom :: ValidLedger(LedgerOf(b, denom), Supply(b, denom))
  }

  lemma PutValid(m: map<Addr, int>, supply: int, a: Addr, n: int)
    requires ValidLedger(m, supply) && n >= 0
    ensures ValidLedger(Put(m, a, n), supply - Get(m, a) + n)
  {
    SumSet(m, a, n);
    if n == 0 && a in m {
      SumRemove(m, a);
    }
    if n == 0 && a !in m {
      assert m - {a} == m;
    }
  }

  lemma BalanceWithinSupply(b: Bank, denom: string, a: Addr)
    requires ValidBank(b)
    ensures 0 <= Balance(b, denom, a) <= Supply(b, denom)
  {
    assert ValidLedger(LedgerOf(b, denom), Supply(b, denom));
    SumAtLeast(LedgerOf(b, denom), a);
  }

  lemma BurntValid(b: Bank, denom: string, a: Addr, n: int)
    requires ValidBank(b) && n <= Balance(b, denom, a)
    ensures ValidBank(Burnt(b, denom, a, n))
  {
    var b' := Burnt(b, denom, a, n);
    forall d ensures ValidLedger(LedgerOf(b', d), Supply(b', d)) {
      assert ValidLedger(LedgerOf(b, d), Supply(b, d));
      if d == denom {
        PutValid(LedgerOf(b, d), Supply(b, d), a, Balance(b, d, a) - n);
      }
    }
  }

  lemma SentValid(b: Bank, denom: string, from: Addr, to: Addr, n: int)
    requires ValidBank(b) && 0 <= n <= Balance(b, denom, from)
    ensures ValidBank(Sent(b, denom, from, to, n))
  {
    var b' := Sent(b, denom, from, to, n);
    var m, s := LedgerOf(b, denom), Supply(b, denom);
    forall d ensures ValidLedger(LedgerOf(b', d), Supply(b', d)) {
      assert ValidLedger(LedgerOf(b, d), Supply(b, d));
      if d == denom {
        PutValid(m, s, from, Get(m, from) - n);
        var m' := Put(m, from, Get(m, from) - n);
        assert Get(m', to) >= 0;
        PutValid(m', s - n, to, Get(m', to) + n);
      }
    }
  }

  lemma MintedValid(b: Bank, denom: string, a: Addr, n: nat)
    requires ValidBank(b)
    ensures ValidBank(Minted(b, denom, a, n))
  {
    BalanceWithinSupply(b, denom, a);
    BurntValid(b, denom, a, 0 - n);
  }

  /** Sending to an account and burning there is burning at the sender. */
  lemma SendThenBurn(b: Bank, denom: string, from: Addr, via: Addr, n: int)
    requires ValidBank(b) && 0 < n <= Balance(b, denom, from)
    ensures Burnt(Sent(b, denom, from, via, n), denom, via, n) == Burnt(b, denom, from, n)
  {
    var m := LedgerOf(b, denom);
    assert ValidLedger(m, Supply(b, denom));
    var m1 := Put(m, from, Get(m, from) - n);
    var m2 := Put(m1, via, Get(m1, via) + n);
    assert Put(m2, via, Get(m2, via) - n) == m1;
    var l := Burnt(Sent(b, denom, from, via, n), denom, via, n);
    var r := Burnt(b, denom, from, n);
    assert l.ledgers == r.ledgers;
  }

  /** What a transfer does to every balance. */
  lemma SentBalance(b: Bank, denom: string, from: Addr, to: Addr, n: int, a: Addr)
    ensures Balance(Sent(b, denom, from, to, n), denom, a)
         == Balance(b, denom, a) - (if a == from then n else 0) + (if a == to then n else 0)
    ensures Sent(b, denom, from, to, n).supply == b.supply
  {
  }

  lemma BurntBalance(b: Bank, denom: string, from: Addr, n: int, a: Addr)
    ensures Balance(Burnt(b, denom, from, n), denom, a) == Balance(b, denom, a) - (if a == from then n else 0)
    ensures Supply(Burnt(b, denom, from, n), denom) == Supply(b, denom) - n
  {
  }
}
