/** `CreditCard`, a consumer credit card with a limit, and
    `PredatoryCreditCard`, which counts its charges and charges a penalty of
    5 for every denied charge. Amounts are whole dollars. */
module CreditCards {
  import opened PythonModel

  /** A credit card: fixed customer, bank, account and limit, and a balance
      that starts at 0. */
  class CreditCard {
    const customer: string
    const bank: string
    const account: string
    const limit: int
    /** `_balance`. */
    var balance: int

    /** `__init__`: keep the four arguments; the balance is 0. */
    constructor (customer: string, bank: string, acnt: string, limit: int)
      ensures this.customer == customer && this.bank == bank
      ensures account == acnt && this.limit == limit && balance == 0
    {
      this.customer, this.bank, account, this.limit := customer, bank, acnt, limit;
      balance := 0;
    }

    /** `get_customer`. */
    function GetCustomer(): (r: string)
      ensures r == customer
    {
      customer
    }

    /** `get_bank`. */
    function GetBank(): (r: string)
      ensures r == bank
    {
      bank
    }

    /** `get_account`. */
    function GetAccount(): (r: string)
      ensures r == account
    {
      account
    }

    /** `get_limit`. */
    function GetLimit(): (r: int)
      ensures r == limit
    {
      limit
    }

    /** `get_balance`. */
    function GetBalance(): (r: int)
      reads this
      ensures r == balance
    {
      balance
    }

    /** `charge`: denied, with the balance unchanged, exactly when
        `price + balance` would pass the limit; otherwise the price is added
        and the balance stays within the limit. */
    method Charge(price: int) returns (ok: bool)
      modifies this
      ensures ok <==> price + old(balance) <= limit
      ensures balance == if ok then old(balance) + price else old(balance)
      ensures ok ==> balance <= limit
    {
      if price + balance > limit {
        return false;
      } else {
        balance := balance + price;
        return true;
      }
    }

    /** `make_payment`: subtract the amount, with no check, so the balance
        may become negative. */
    method MakePayment(amount: int)
      modifies this
      ensures balance == old(balance) - amount
    {
      balance := balance - amount;
    }
  }

  /** The balance after charging `prices` one by one from `balance` with a
      limit of `limit`: the reference for a run of `charge` calls. */
  function ChargeRun(limit: int, balance: int, prices: seq<int>): int
    decreases |prices|
  {
    if prices == [] then balance
    else
      var b := if prices[0] + balance <= limit then balance + prices[0] else balance;
      ChargeRun(limit, b, prices[1..])
  }

  /** A card that starts within its limit stays within it under any run of
      charges, negative prices included. */
  lemma {:induction false} ChargeRunWithinLimit(limit: int, balance: int, prices: seq<int>)
    requires balance <= limit
    ensures ChargeRun(limit, balance, prices) <= limit
    decreases |prices|
  {
    if prices != [] {
      var b := if prices[0] + balance <= limit then balance + prices[0] else balance;
      ChargeRunWithinLimit(limit, b, prices[1..]);
    }
  }

  /** A new card: the getters give back the constructor arguments and the
      balance is 0. Charging `prices` to it then gives the balance of the
      reference run, which is within the limit when the limit is not
      negative. */
  method NewCardRun(customer: string, bank: string, acnt: string, limit: int, prices: seq<int>)
      returns (got: (string, string, string, int, int), balance: int)
    ensures got == (customer, bank, acnt, limit, 0)
    ensures balance == ChargeRun(limit, 0, prices)
    ensures limit >= 0 ==> balance <= limit
  {
    var card := new CreditCard(customer, bank, acnt, limit);
    got := (card.GetCustomer(), card.GetBank(), card.GetAccount(), card.GetLimit(), card.GetBalance());
    var i := 0;
    while i < |prices|
      invariant 0 <= i <= |prices| && card.limit == limit
      invariant ChargeRun(limit, card.balance, prices[i..]) == ChargeRun(limit, 0, prices)
    {
      assert prices[i..][1..] == prices[i + 1..];
      var _ := card.Charge(prices[i]);
      i := i + 1;
    }
    balance := card.GetBalance();
    if limit >= 0 {
      ChargeRunWithinLimit(limit, 0, prices);
    }
  }

  /** The penalty for a denied predatory charge; the source writes the
      literal 5 and does not use `late_fee` for it. */
  const Penalty := 5

  /** A predatory card: a credit card together with an annual rate, a count
      of `charge` calls, the payments made so far, a minimum payment
      percentage and a late fee. Only the count and the payments change. */
  class PredatoryCreditCard {
    /** The balance, limit and identity the card inherits. */
    const card: CreditCard
    /** `_apr`. */
    const apr: real
    /** `_call_count`. */
    var callCount: int
    /** `_cum_payment`. */
    var cumPayment: int
    /** `_min_payment_percent`. */
    const minPaymentPercent: real
    /** `_late_fee`. */
    const lateFee: int

    /** `__init__`, with the defaults `call_count = 0`,
        `min_payment_percent = .05` and `late_fee = 5` written out by the
        caller. */
    constructor (customer: string, bank: string, acnt: string, limit: int, apr: real,
                 callCount: int, minPaymentPercent: real, lateFee: int)
      ensures fresh(card) && card.customer == customer && card.bank == bank
      ensures card.account == acnt && card.limit == limit && card.balance == 0
      ensures this.apr == apr && this.callCount == callCount && cumPayment == 0
      ensures this.minPaymentPercent == minPaymentPercent && this.lateFee == lateFee
    {
      card := new CreditCard(customer, bank, acnt, limit);
      this.apr := apr;
      this.callCount := callCount;
      cumPayment := 0;
      this.minPaymentPercent := minPaymentPercent;
      this.lateFee := lateFee;
    }

    /** `charge`, as written: count the call; for the first ten calls charge
        the price as a plain card does and add the penalty of 5 to the
        balance when it is denied, whatever the limit. From the eleventh
        call on, line 92 reads `SURCHARE`, a local of `__init__` only, and
        raises `NameError` before anything is charged. */
    method Charge(price: int) returns (r: Result<bool>)
      modifies this, card
      ensures callCount == old(callCount) + 1
      ensures cumPayment == old(cumPayment)
      ensures r == if callCount <= 10 then Success(price + old(card.balance) <= card.limit)
                   else Failure(NameError)
      ensures card.balance == if r.Failure? then old(card.balance)
                              else if r.value then old(card.balance) + price
                              else old(card.balance) + Penalty
    {
      callCount := callCount + 1;
      if callCount > 10 {
        return Failure(NameError);
      }
      var success := card.Charge(price);
      if !success {
        card.balance := card.balance + Penalty;
      }
      r := Success(success);
    }

    /** `charge` with the surcharge of 1 that line 92 evidently means from
        the eleventh call on: the call always returns, and the amount
        charged is the price plus the surcharge. */
    method ChargeFixed(price: int) returns (ok: bool)
      modifies this, card
      ensures callCount == old(callCount) + 1
      ensures cumPayment == old(cumPayment)
      ensures ok <==> price + Surcharge(callCount) + old(card.balance) <= card.limit
      ensures card.balance == if ok then old(card.balance) + price + Surcharge(callCount)
                              else old(card.balance) + Penalty
    {
      callCount := callCount + 1;
      var success := card.Charge(price + Surcharge(callCount));
      if !success {
        card.balance := card.balance + Penalty;
      }
      ok := success;
    }

    /** `make_payment`: the balance goes down and the running total of
        payments up by the same amount. */
    method MakePayment(amount: int)
      modifies this, card
      ensures card.balance == old(card.balance) - amount
      ensures cumPayment == old(cumPayment) + amount
      ensures callCount == old(callCount)
      ensures card.balance + cumPayment == old(card.balance) + old(cumPayment)
    {
      card.MakePayment(amount);
      cumPayment := cumPayment + amount;
    }
  }

  /** The surcharge on the call with number `count`: 0 for the first ten
      calls, then the `SURCHARE` value 1. */
  function Surcharge(count: int): (s: int)
    ensures s == 0 <==> count <= 10
    ensures 0 <= s <= 1
  {
    if count <= 10 then 0 else 1
  }

  /** The balance after the predatory charges `prices`: as a plain card,
      but every denied charge adds the penalty. */
  function PredatoryRun(limit: int, balance: int, prices: seq<int>): int
    decreases |prices|
  {
    if prices == [] then balance
    else
      var b := if prices[0] + balance <= limit then balance + prices[0] else balance + Penalty;
      PredatoryRun(limit, b, prices[1..])
  }

  /** Penalties can take the balance past the limit, but by at most the
      penalty per charge: a run that starts at most `m` penalties above the
      limit ends at most one more penalty per charge above it. */
  lemma {:induction false} PredatoryRunBound(limit: int, balance: int, prices: seq<int>, m: nat)
    requires balance <= limit + Penalty * m
    ensures PredatoryRun(limit, balance, prices) <= limit + Penalty * (|prices| + m)
    decreases |prices|
  {
    if prices != [] {
      var b := if prices[0] + balance <= limit then balance + prices[0] else balance + Penalty;
      PredatoryRunBound(limit, b, prices[1..], m + 1);
    }
  }

  /** Up to ten charges to a new predatory card give the reference run's
      balance, and count every call; with a limit that is not negative the
      balance ends at most 5 per charge above it. */
  method PredatoryFirstTen(limit: int, prices: seq<int>) returns (balance: int, calls: int)
    requires |prices| <= 10
    ensures balance == PredatoryRun(limit, 0, prices)
    ensures calls == |prices|
    ensures limit >= 0 ==> balance <= limit + Penalty * |prices|
  {
    var p := new PredatoryCreditCard("", "", "", limit, 0.0, 0, 0.05, 5);
    var i := 0;
    while i < |prices|
      invariant 0 <= i <= |prices| && p.card.limit == limit && p.callCount == i
      invariant PredatoryRun(limit, p.card.balance, prices[i..]) == PredatoryRun(limit, 0, prices)
    {
      assert prices[i..][1..] == prices[i + 1..];
      var _ := p.Charge(prices[i]);
      i := i + 1;
    }
    balance, calls := p.card.balance, p.callCount;
    if limit >= 0 {
      PredatoryRunBound(limit, 0, prices, 0);
    }
  }

  /** A denied charge can leave the balance past the limit: on a card with
      limit 0, a charge of 1 is denied and the balance becomes 5. */
  method DeniedChargePassesLimit() returns (r: Result<bool>, balance: int)
    ensures r == Success(false) && balance == 5
  {
    var p := new PredatoryCreditCard("", "", "", 0, 0.0, 0, 0.05, 5);
    r := p.Charge(1);
    balance := p.card.balance;
  }

  /** As written, the eleventh charge raises `NameError` whatever its price:
      a card created with `call_count = 10` fails on its first charge. */
  method EleventhChargeFails(limit: int, price: int) returns (r: Result<bool>, balance: int)
    ensures r == Failure(NameError) && balance == 0
  {
    var p := new PredatoryCreditCard("", "", "", limit, 0.0, 10, 0.05, 5);
    r := p.Charge(price);
    balance := p.card.balance;
  }

  /** With the surcharge, the eleventh charge of a price that fits goes
      through and costs one more than the price. */
  method EleventhChargeFixed(limit: int, price: int) returns (ok: bool, balance: int)
    requires price + 1 <= limit
    ensures ok && balance == price + 1
  {
    var p := new PredatoryCreditCard("", "", "", limit, 0.0, 10, 0.05, 5);
    ok := p.ChargeFixed(price);
    balance := p.card.balance;
  }
}
