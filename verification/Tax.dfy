/** The fee tax: a rate in 18-decimal fixed point, and what each block moves. */
module Tax {
  import opened Bytes
  import opened Walks

  /** A decimal d stands for d / ONE. */
  type Dec = int

  const ONE: Dec := 1_000_000_000_000_000_000

  const MAX_TAX: Dec := ONE

  /** Rounds half to even after a division by ONE, as the decimal library multiplies. */
  function Chop(x: nat): nat {
    var q, r := x / ONE, x % ONE;
    if 2 * r < ONE then q else if 2 * r > ONE then q + 1 else if q % 2 == 0 then q else q + 1
  }

  function Mul(a: nat, b: nat): nat { Chop(a * b) }

  function OfInt(n: nat): nat { n * ONE }

  function Truncate(d: nat): nat { d / ONE }

  /** The nearest whole number, the even one of two. */
  lemma ChopRounds(x: nat)
    ensures var e := 2 * (ONE * Chop(x) - x); -ONE <= e <= ONE && (e == ONE || e == -ONE ==> Chop(x) % 2 == 0)
  {
    assert x == ONE * (x / ONE) + x % ONE;
  }

  lemma ChopExact(x: nat)
    ensures Chop(x * ONE) == x
  {
  }

  /** Whole coins times a decimal loses nothing to rounding, so truncation is the exact floor. */
  lemma TaxIsFloor(amount: nat, rate: nat)
    ensures Truncate(Mul(OfInt(amount), rate)) == amount * rate / ONE
    ensures rate <= ONE ==> amount * rate / ONE <= amount
  {
    assert OfInt(amount) * rate == (amount * rate) * ONE;
    ChopExact(amount * rate);
    if rate <= ONE { assert amount * rate <= amount * ONE; }
  }

  // ---- accounts ----

  type Account = Str
  type Denom = Str

  /** What each account holds of each denom; nothing where there is no entry. */
  type Bank = map<(Account, Denom), nat>

  function Balance(bank: Bank, a: Account, d: Denom): nat {
    if (a, d) in bank then bank[(a, d)] else 0
  }

  function Denoms(bank: Bank, a: Account): set<Denom> {
    set k | k in bank && k.0 == a :: k.1
  }

  /** What the outside provides: the collector account, address and decimal parsing, blocked recipients. */
  datatype Host = Host(
    collector: Account, bech32: Str -> Option<Account>, decimal: Str -> Option<Dec>, blocked: Account -> bool)

  datatype Params = Params(tax: Dec, taxAddress: Str)

  datatype Update = Update(authority: Str, tax: Str, taxAddress: Str)

  predicate ValidParams(host: Host, p: Params) {
    0 <= p.tax <= MAX_TAX && p.taxAddress != [] && host.bech32(p.taxAddress).Some?
  }

  /** The checks made before the stored parameters are looked at. */
  predicate ValidUpdate(host: Host, u: Update) {
    && u.authority != [] && host.bech32(u.authority).Some?
    && (u.tax != [] ==> host.decimal(u.tax).Some? && 0 <= host.decimal(u.tax).value <= MAX_TAX)
    && (u.taxAddress != [] ==> host.bech32(u.taxAddress).Some?)
  }

  /** The new parameters, or None when the update is refused. */
  function Updated(host: Host, p: Params, u: Update): Option<Params> {
    if !ValidUpdate(host, u) || u.authority != p.taxAddress then None
    else if u.taxAddress != [] && host.blocked(host.bech32(u.taxAddress).value) then None
    else
      var q := Params(
        if u.tax != [] then host.decimal(u.tax).value else p.tax,
        if u.taxAddress != [] then u.taxAddress else p.taxAddress);
      if ValidParams(host, q) then Some(q) else None
  }

  /** What of each of the collector's denoms is due, leaving out what rounds to nothing. */
  function Due(bank: Bank, collector: Account, rate: nat): map<Denom, nat> {
    map d | d in Denoms(bank, collector) && Balance(bank, collector, d) * rate / ONE > 0
          :: Balance(bank, collector, d) * rate / ONE
  }

  function Amount(coins: map<Denom, nat>, d: Denom): nat {
    if d in coins then coins[d] else 0
  }

  /** A transfer seen from one account and denom. */
  function Moved(bank: Bank, from: Account, to: Account, coins: map<Denom, nat>, a: Account, d: Denom): int {
    Balance(bank, a, d) - (if a == from then Amount(coins, d) else 0) + (if a == to then Amount(coins, d) else 0)
  }

  /** after is bank with coins moved from one account to another. */
  ghost predicate Transferred(bank: Bank, after: Bank, from: Account, to: Account, coins: map<Denom, nat>) {
    forall a, d :: Balance(after, a, d) == Moved(bank, from, to, coins, a, d)
  }

  /** One denom debited, then credited. */
  function Paid(bank: Bank, from: Account, to: Account, d: Denom, n: nat): Bank
    requires n <= Balance(bank, from, d)
  {
    var less := bank[(from, d) := Balance(bank, from, d) - n];
    less[(to, d) := Balance(less, to, d) + n]
  }

  /** The denoms in done have moved, the others not yet. */
  ghost predicate Partly(was: Bank, now: Bank, from: Account, to: Account, coins: map<Denom, nat>, done: seq<Denom>) {
    forall a, d :: Balance(now, a, d) == if d in done then Moved(was, from, to, coins, a, d) else Balance(was, a, d)
  }

  lemma PartlyNext(was: Bank, now: Bank, from: Account, to: Account, coins: map<Denom, nat>, done: seq<Denom>, d: Denom)
    requires Partly(was, now, from, to, coins, done) && d in coins && d !in done && coins[d] <= Balance(was, from, d)
    ensures coins[d] <= Balance(now, from, d)
    ensures Partly(was, Paid(now, from, to, d, coins[d]), from, to, coins, done + [d])
  {
    assert Balance(now, from, d) == Balance(was, from, d);
    var next := Paid(now, from, to, d, coins[d]);
    forall a, e ensures Balance(next, a, e)
        == if e in done + [d] then Moved(was, from, to, coins, a, e) else Balance(was, a, e)
    {
      assert Balance(now, a, e) == if e in done then Moved(was, from, to, coins, a, e) else Balance(was, a, e);
    }
  }

  lemma PartlyDone(was: Bank, now: Bank, from: Account, to: Account, coins: map<Denom, nat>, done: seq<Denom>)
    requires Partly(was, now, from, to, coins, done) && forall d :: d in coins <==> d in done
    ensures Transferred(was, now, from, to, coins)
  {
    forall a, d ensures Balance(now, a, d) == Moved(was, from, to, coins, a, d) {
      assert Balance(now, a, d) == if d in done then Moved(was, from, to, coins, a, d) else Balance(was, a, d);
    }
  }

  class Keeper {
    const host: Host
    var params: Params
    var bank: Bank

    constructor (host: Host, params: Params, bank: Bank)
      ensures this.host == host && this.params == params && this.bank == bank
    {
      this.host, this.params, this.bank := host, params, bank;
    }

    method UpdateParams(u: Update) returns (ok: bool)
      modifies `params
      ensures ok <==> Updated(host, old(params), u).Some?
      ensures params == if ok then Updated(host, old(params), u).value else old(params)
    {
      if !ValidUpdate(host, u) { return false; }
      if u.authority != params.taxAddress { return false; }
      var update := params;
      if u.tax != [] {
        update := update.(tax := host.decimal(u.tax).value);
        if update.tax > MAX_TAX { return false; }
      }
      if u.taxAddress != [] {
        if host.blocked(host.bech32(u.taxAddress).value) { return false; }
        update := update.(taxAddress := u.taxAddress);
      }
      if !ValidParams(host, update) { return false; }
      params := update;
      return true;
    }

    /** Multiplies each of the collector's balances by the rate and truncates. */
    method Allocation(rate: nat) returns (coins: map<Denom, nat>)
      ensures coins == Due(bank, host.collector, rate)
    {
      var denoms := Denoms(bank, host.collector);
      var ds := WalkStrs(denoms);
      WalkStrsExact(denoms);
      coins := map[];
      for i := 0 to |ds|
        invariant forall d :: d in coins <==> d in ds[..i] && Balance(bank, host.collector, d) * rate / ONE > 0
        invariant forall d :: d in coins ==> coins[d] == Balance(bank, host.collector, d) * rate / ONE
      {
        var d := ds[i];
        assert ds[..i + 1] == ds[..i] + [d];
        var amount := Balance(bank, host.collector, d);
        TaxIsFloor(amount, rate);
        var due := Truncate(Mul(OfInt(amount), rate));
        if due > 0 { coins := coins[d := due]; }
      }
      assert ds[..|ds|] == ds;
      assert coins == Due(bank, host.collector, rate);
    }

    /** Moves coins denom by denom; the sender must hold them. */
    method Send(from: Account, to: Account, coins: map<Denom, nat>)
      requires forall d :: d in coins ==> coins[d] <= Balance(bank, from, d)
      modifies `bank
      ensures Transferred(old(bank), bank, from, to, coins)
    {
      var ds := WalkStrs(coins.Keys);
      WalkStrsExact(coins.Keys);
      assert forall d :: d in coins.Keys <==> d in ds;
      SendWalk(from, to, coins, ds);
    }

    method SendWalk(from: Account, to: Account, coins: map<Denom, nat>, ds: seq<Denom>)
      requires forall d :: d in coins ==> coins[d] <= Balance(bank, from, d)
      requires NoDup(ds) && forall d :: d in coins <==> d in ds
      modifies `bank
      ensures Transferred(old(bank), bank, from, to, coins)
    {
      for i := 0 to |ds|
        invariant Partly(old(bank), bank, from, to, coins, ds[..i])
      {
        var d := ds[i];
        assert d in ds && d !in ds[..i];
        assert ds[..i + 1] == ds[..i] + [d];
        PartlyNext(old(bank), bank, from, to, coins, ds[..i], d);
        bank := Paid(bank, from, to, d, coins[d]);
      }
      assert ds[..|ds|] == ds;
      PartlyDone(old(bank), bank, from, to, coins, ds);
    }

    /** Refused for a rate out of range or a blocked recipient with something to receive. */
    method AllocateTax(tax: Dec, taxAddress: Account) returns (ok: bool)
      modifies `bank
      ensures ok <==> 0 <= tax <= MAX_TAX && (Due(old(bank), host.collector, tax) == map[] || !host.blocked(taxAddress))
      ensures ok ==> Transferred(old(bank), bank, host.collector, taxAddress, Due(old(bank), host.collector, tax))
      ensures !ok ==> bank == old(bank)
    {
      if tax < 0 || tax > MAX_TAX { return false; }
      var coins := Allocation(tax);
      if coins == map[] { return true; }
      if host.blocked(taxAddress) { return false; }
      DueIsHeld(bank, host.collector, tax);
      Send(host.collector, taxAddress, coins);
      return true;
    }

    method EndBlocker(height: nat) returns (ok: bool)
      modifies `bank
      ensures ok == Ends(host, params, old(bank), height)
      ensures if ok then Taxed(host, params, old(bank), bank, height) else bank == old(bank)
    {
      if params.tax == 0 { return true; }
      if height > 1 {
        var account := host.bech32(params.taxAddress);
        if account.None? { return false; }
        ok := AllocateTax(params.tax, account.value);
        return;
      }
      return true;
    }
  }

  lemma DueIsHeld(bank: Bank, collector: Account, rate: nat)
    requires rate <= ONE
    ensures forall d :: d in Due(bank, collector, rate) ==> Due(bank, collector, rate)[d] <= Balance(bank, collector, d)
  {
    forall d | d in Due(bank, collector, rate) ensures Due(bank, collector, rate)[d] <= Balance(bank, collector, d) {
      TaxIsFloor(Balance(bank, collector, d), rate);
    }
  }

  predicate Collects(p: Params, height: nat) { p.tax != 0 && height > 1 }

  /** The block's end succeeds. */
  predicate Ends(host: Host, p: Params, bank: Bank, height: nat) {
    Collects(p, height) ==>
      && host.bech32(p.taxAddress).Some? && 0 <= p.tax <= MAX_TAX
      && (Due(bank, host.collector, p.tax) == map[] || !host.blocked(host.bech32(p.taxAddress).value))
  }

  /** What the block's end does to the accounts. */
  ghost predicate Taxed(host: Host, p: Params, bank: Bank, after: Bank, height: nat)
    requires Ends(host, p, bank, height)
  {
    if Collects(p, height)
    then Transferred(bank, after, host.collector, host.bech32(p.taxAddress).value, Due(bank, host.collector, p.tax))
    else after == bank
  }

  // ---- what a block moves ----

  /**
   * From the second block on exactly the floor of balance times rate goes from the collector to the tax address,
   * per denom, and no other balance changes; none at all when the collector is the tax address, before, or at rate 0.
   */
  lemma BlockMovesFloor(host: Host, p: Params, bank: Bank, after: Bank, height: nat, a: Account, d: Denom)
    requires Ends(host, p, bank, height) && Taxed(host, p, bank, after, height)
    ensures height <= 1 || p.tax == 0 ==> Balance(after, a, d) == Balance(bank, a, d)
    ensures height > 1 && p.tax != 0 ==>
      var to, was := host.bech32(p.taxAddress).value, Balance(bank, host.collector, d);
      var part := was * p.tax / ONE;
      && 0 <= part <= was
      && (to == host.collector ==> Balance(after, a, d) == Balance(bank, a, d))
      && (to != host.collector && a == host.collector ==> Balance(after, a, d) == was - part)
      && (to != host.collector && a == to ==> Balance(after, a, d) == Balance(bank, a, d) + part)
      && (a != host.collector && a != to ==> Balance(after, a, d) == Balance(bank, a, d))
  {
    if height > 1 && p.tax != 0 {
      var to, was := host.bech32(p.taxAddress).value, Balance(bank, host.collector, d);
      TaxIsFloor(was, p.tax);
      DueExactly(bank, host.collector, p.tax, d);
      assert Balance(after, a, d) == Moved(bank, host.collector, to, Due(bank, host.collector, p.tax), a, d);
    }
  }

  lemma DueExactly(bank: Bank, collector: Account, rate: nat, d: Denom)
    ensures Amount(Due(bank, collector, rate), d) == Balance(bank, collector, d) * rate / ONE
  {
    if (collector, d) in bank {
      assert (collector, d).1 in Denoms(bank, collector);
    }
  }

  /** Some balance of the collector is worth at least one whole coin of tax. */
  ghost predicate Payable(bank: Bank, collector: Account, rate: nat) {
    exists d :: Balance(bank, collector, d) * rate >= ONE
  }

  lemma DueIsPayable(bank: Bank, collector: Account, rate: nat)
    ensures Due(bank, collector, rate) != map[] <==> Payable(bank, collector, rate)
  {
    var due := Due(bank, collector, rate);
    if due != map[] {
      var d :| d in due;
      assert Balance(bank, collector, d) * rate >= ONE;
    }
    if Payable(bank, collector, rate) {
      var d :| Balance(bank, collector, d) * rate >= ONE;
      DueExactly(bank, collector, rate, d);
      assert d in due;
    }
  }

  /** The sum over any distinct accounts. */
  function Total(bank: Bank, accounts: seq<Account>, d: Denom): nat {
    if accounts == [] then 0 else Balance(bank, accounts[0], d) + Total(bank, accounts[1..], d)
  }

  lemma {:induction false} TotalMoves(bank: Bank, after: Bank, accounts: seq<Account>, from: Account, to: Account,
                                      coins: map<Denom, nat>, d: Denom)
    requires NoDup(accounts) && Transferred(bank, after, from, to, coins)
    ensures Total(after, accounts, d) == Total(bank, accounts, d)
      - (if from in accounts then Amount(coins, d) else 0) + (if to in accounts then Amount(coins, d) else 0)
    decreases |accounts|
  {
    if accounts != [] {
      var a, rest := accounts[0], accounts[1..];
      assert NoDup(rest) by {
        forall i, j | 0 <= i < j < |rest| ensures rest[i] != rest[j] { assert accounts[i + 1] != accounts[j + 1]; }
      }
      assert a !in rest;
      TotalMoves(bank, after, rest, from, to, coins, d);
      assert accounts == [a] + rest;
      assert Balance(after, a, d) == Moved(bank, from, to, coins, a, d);
    }
  }

  /** The tax step conserves every denom over any accounts that include both parties. */
  lemma TaxConserves(host: Host, p: Params, bank: Bank, after: Bank, height: nat, accounts: seq<Account>, d: Denom)
    requires Ends(host, p, bank, height) && Taxed(host, p, bank, after, height) && NoDup(accounts)
    requires Collects(p, height) ==> host.collector in accounts && host.bech32(p.taxAddress).value in accounts
    ensures Total(after, accounts, d) == Total(bank, accounts, d)
  {
    if Collects(p, height) {
      TotalMoves(bank, after, accounts, host.collector, host.bech32(p.taxAddress).value,
                 Due(bank, host.collector, p.tax), d);
    }
  }

  // ---- runs ----

  /** A parameter update, a block's end, or whatever else changes the accounts in between. */
  datatype Event = ParamsUpdate(update: Update) | BlockEnd(height: nat, after: Bank) | Elsewhere(after: Bank)

  datatype World = World(params: Params, bank: Bank)

  ghost predicate Step(host: Host, w: World, e: Event, next: World) {
    match e
    case ParamsUpdate(u) =>
      next == w.(params := if Updated(host, w.params, u).Some? then Updated(host, w.params, u).value else w.params)
    case BlockEnd(height, after) =>
      Ends(host, w.params, w.bank, height) && Taxed(host, w.params, w.bank, after, height) && next == w.(bank := after)
    case Elsewhere(after) => next == w.(bank := after)
  }

  ghost predicate IsRun(host: Host, worlds: seq<World>, events: seq<Event>) {
    && |worlds| == |events| + 1
    && forall i :: 0 <= i < |events| ==> Step(host, worlds[i], events[i], worlds[i + 1])
  }

  /** From valid parameters the rate stays between zero and one, and the address stays well formed. */
  lemma {:induction false} RateStaysInRange(host: Host, worlds: seq<World>, events: seq<Event>, i: nat)
    requires IsRun(host, worlds, events) && ValidParams(host, worlds[0].params) && i < |worlds|
    ensures ValidParams(host, worlds[i].params)
    ensures 0 <= worlds[i].params.tax <= 1_000_000_000_000_000_000 && host.bech32(worlds[i].params.taxAddress).Some?
  {
    if i > 0 {
      RateStaysInRange(host, worlds, events, i - 1);
      assert Step(host, worlds[i - 1], events[i - 1], worlds[i - 1 + 1]);
    }
  }

  /** The rate sent is empty or a decimal between zero and one; the address sent is empty or an unblocked account's. */
  ghost predicate Acceptable(host: Host, u: Update) {
    && (u.tax == [] || (host.decimal(u.tax).Some? && 0 <= host.decimal(u.tax).value <= ONE))
    && (u.taxAddress == [] || (host.bech32(u.taxAddress).Some? && !host.blocked(host.bech32(u.taxAddress).value)))
  }

  /**
   * In a run an update is accepted exactly when the current tax address sends an acceptable one; what it sends
   * is then stored, and what it leaves empty stays.
   */
  lemma UpdateAccepted(host: Host, worlds: seq<World>, events: seq<Event>, i: nat, u: Update)
    requires IsRun(host, worlds, events) && ValidParams(host, worlds[0].params) && i < |worlds|
    ensures Updated(host, worlds[i].params, u).Some? <==>
              u.authority == worlds[i].params.taxAddress && Acceptable(host, u)
    ensures Updated(host, worlds[i].params, u).Some? ==>
      var p, q := worlds[i].params, Updated(host, worlds[i].params, u).value;
      && (u.tax == [] ==> q.tax == p.tax) && (u.tax != [] ==> Some(q.tax) == host.decimal(u.tax))
      && (u.taxAddress == [] ==> q.taxAddress == p.taxAddress) && (u.taxAddress != [] ==> q.taxAddress == u.taxAddress)
  {
    RateStaysInRange(host, worlds, events, i);
  }

  /** In a run nobody but the current tax address changes the parameters. */
  lemma OnlyTheTaxAddressUpdates(host: Host, worlds: seq<World>, events: seq<Event>, i: nat)
    requires IsRun(host, worlds, events) && ValidParams(host, worlds[0].params) && i < |events|
    ensures worlds[i + 1].params != worlds[i].params ==>
      events[i].ParamsUpdate? && events[i].update.authority == worlds[i].params.taxAddress
      && Acceptable(host, events[i].update)
  {
    assert Step(host, worlds[i], events[i], worlds[i + 1]);
    if events[i].ParamsUpdate? { UpdateAccepted(host, worlds, events, i, events[i].update); }
  }

  /** Hence in a run a block's end fails only from the second block on, for a blocked recipient with a coin due. */
  lemma OnlyBlockedRecipientsFail(host: Host, worlds: seq<World>, events: seq<Event>, i: nat, height: nat)
    requires IsRun(host, worlds, events) && ValidParams(host, worlds[0].params) && i < |worlds|
    ensures ValidParams(host, worlds[i].params)
    ensures var w := worlds[i];
      Ends(host, w.params, w.bank, height) <==>
        height <= 1 || !Payable(w.bank, host.collector, w.params.tax)
        || !host.blocked(host.bech32(w.params.taxAddress).value)
  {
    RateStaysInRange(host, worlds, events, i);
    DueIsPayable(worlds[i].bank, host.collector, worlds[i].params.tax);
  }

  /** An accepted update never names a blocked recipient. */
  lemma {:induction false} RecipientNeverBecomesBlocked(host: Host, worlds: seq<World>, events: seq<Event>, i: nat)
    requires IsRun(host, worlds, events) && ValidParams(host, worlds[0].params) && i < |worlds|
    requires !host.blocked(host.bech32(worlds[0].params.taxAddress).value)
    ensures ValidParams(host, worlds[i].params) && !host.blocked(host.bech32(worlds[i].params.taxAddress).value)
    ensures forall height :: Ends(host, worlds[i].params, worlds[i].bank, height)
  {
    if i > 0 {
      RecipientNeverBecomesBlocked(host, worlds, events, i - 1);
      assert Step(host, worlds[i - 1], events[i - 1], worlds[i - 1 + 1]);
    }
  }
}
