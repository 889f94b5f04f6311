/** Properties of the payment service: how scheme flags combine, what each scheme's
    rule decides, what a payment changes, and what repeating a payment does. */
module PaymentProperties {
  import opened Types
  import opened Data
  import opened Services

  // ---- Scheme flags ----

  /** Distinct schemes occupy disjoint bits, and a scheme's bit is its own. */
  lemma DistinctSchemesDistinctBits(s: PaymentScheme, t: PaymentScheme)
    ensures s != t <==> PaymentSchemeToFlag(s) & PaymentSchemeToFlag(t) == 0
    ensures s == t <==> PaymentSchemeToFlag(s) == PaymentSchemeToFlag(t)
  {
  }

  /** Definitional: the flag of a scheme is one shifted left by the scheme's position in its
      enumeration, and shifting it back by that position gives one. */
  lemma FlagFollowsEnumerationOrder(s: PaymentScheme)
    ensures PaymentSchemeToFlag(s) >> Ordinal(s) == 1
    ensures PaymentSchemeToFlag(s) == 1 << Ordinal(s)
  {
  }

  /** Reading a flag value as a set of schemes and writing it back keeps exactly the
      scheme bits: the set view loses only bits that name no scheme. */
  lemma SchemesRoundTrip(flags: SchemeFlags)
    ensures FlagsOf(Schemes(flags)) == flags & SchemeBits
  {
    var ss := Schemes(flags);
    assert FasterPayments in ss <==> flags & 1 != 0;
    assert Chaps in ss <==> flags & 2 != 0;
    assert Bacs in ss <==> flags & 4 != 0;
  }

  /** Adding one scheme to an account's flags enables it and leaves the others as they were. */
  lemma SchemesCombineIndependently(flags: SchemeFlags, s: PaymentScheme)
    ensures Schemes(flags | PaymentSchemeToFlag(s)) == Schemes(flags) + {s}
  {
    match s
    case FasterPayments =>
      assert (flags | 1) & 1 != 0 && (flags | 1) & 2 == flags & 2 && (flags | 1) & 4 == flags & 4;
    case Chaps =>
      assert (flags | 2) & 1 == flags & 1 && (flags | 2) & 2 != 0 && (flags | 2) & 4 == flags & 4;
    case Bacs =>
      assert (flags | 4) & 1 == flags & 1 && (flags | 4) & 2 == flags & 2 && (flags | 4) & 4 != 0;
  }

  /** Validation reads only the three scheme bits of the allowed-schemes flags. */
  lemma ValidationIgnoresUnknownBits(request: MakePaymentRequest, account: Account, flags: SchemeFlags)
    requires flags & SchemeBits == account.allowedPaymentSchemes & SchemeBits
    ensures GetValidationResult(request, Some(account.(allowedPaymentSchemes := flags)))
         == GetValidationResult(request, Some(account))
  {
    assert Schemes(flags) == Schemes(account.allowedPaymentSchemes) by {
      SchemesRoundTrip(flags);
      SchemesRoundTrip(account.allowedPaymentSchemes);
    }
  }

  // ---- The validation rules ----

  /** No account under the debtor number: the payment fails and the store is untouched. */
  lemma MissingAccountFails(accounts: map<string, Account>, request: MakePaymentRequest)
    requires request.debtorAccountNumber !in accounts
    ensures !Pay(accounts, request).0.success
    ensures Pay(accounts, request).1 == accounts
  {
  }

  /** A scheme the account does not allow fails, whatever the balance, status or amount. */
  lemma UnpermittedSchemeFails(request: MakePaymentRequest, account: Account)
    requires !HasFlag(account.allowedPaymentSchemes, PaymentSchemeToFlag(request.paymentScheme))
    ensures forall balance: int, status: AccountStatus, amount: int ::
      !GetValidationResult(request.(amount := amount), Some(account.(balance := balance, status := status))).success
  {
  }

  /** FasterPayments, once permitted, succeeds exactly when the balance covers the amount. */
  lemma FasterPaymentsNeedsFunds(request: MakePaymentRequest, account: Account)
    requires request.paymentScheme == FasterPayments
    requires FasterPayments in Schemes(account.allowedPaymentSchemes)
    ensures GetValidationResult(request, Some(account)).success <==> account.balance >= request.amount
    ensures forall status: AccountStatus ::
      GetValidationResult(request, Some(account.(status := status))) == GetValidationResult(request, Some(account))
  {
  }

  /** Chaps, once permitted, succeeds exactly when the account is Live; balance and amount
      play no part. */
  lemma ChapsNeedsLiveAccount(request: MakePaymentRequest, account: Account)
    requires request.paymentScheme == Chaps
    requires Chaps in Schemes(account.allowedPaymentSchemes)
    ensures GetValidationResult(request, Some(account)).success <==> account.status == Live
    ensures forall balance: int, amount: int ::
      GetValidationResult(request.(amount := amount), Some(account.(balance := balance)))
      == GetValidationResult(request, Some(account))
  {
  }

  /** Bacs, once permitted, always succeeds. */
  lemma BacsAlwaysSucceeds(request: MakePaymentRequest, account: Account)
    requires request.paymentScheme == Bacs
    requires Bacs in Schemes(account.allowedPaymentSchemes)
    ensures forall balance: int, status: AccountStatus, amount: int ::
      GetValidationResult(request.(amount := amount), Some(account.(balance := balance, status := status))).success
  {
  }

  /** A Bacs payment larger than the balance goes through and leaves the balance negative. */
  lemma BacsMayOverdraw(accounts: map<string, Account>, request: MakePaymentRequest)
    requires request.debtorAccountNumber in accounts
    requires request.paymentScheme == Bacs
    requires Bacs in Schemes(accounts[request.debtorAccountNumber].allowedPaymentSchemes)
    requires accounts[request.debtorAccountNumber].balance < request.amount
    ensures Pay(accounts, request).0.success
    ensures Pay(accounts, request).1[request.debtorAccountNumber].balance < 0
  {
  }

  // ---- The store after a payment ----

  /** A payment keeps every account stored under its own number. */
  lemma PayKeepsAccountsKeyed(accounts: map<string, Account>, request: MakePaymentRequest)
    requires KeyedByNumber(accounts)
    ensures KeyedByNumber(Pay(accounts, request).1)
  {
  }

  /** The same request made twice, both times successfully, debits the account twice. */
  lemma PaymentIsNotIdempotent(accounts: map<string, Account>, request: MakePaymentRequest)
    requires Pay(accounts, request).0.success
    requires Pay(Pay(accounts, request).1, request).0.success
    ensures var once := Pay(accounts, request).1;
            var twice := Pay(once, request).1;
            twice[request.debtorAccountNumber].balance
              == accounts[request.debtorAccountNumber].balance - 2 * request.amount &&
            (request.amount != 0 ==> twice != once)
  {
  }

  /** The results and the accounts after the same request is made `n` times in a row. */
  function PayRepeatedly(accounts: map<string, Account>, request: MakePaymentRequest, n: nat)
    : (out: (seq<MakePaymentResult>, map<string, Account>))
    ensures |out.0| == n
    ensures out.1.Keys == accounts.Keys
  {
    if n == 0 then ([], accounts)
    else
      var first := Pay(accounts, request);
      var rest := PayRepeatedly(first.1, request, n - 1);
      ([first.0] + rest.0, rest.1)
  }

  /** A payment that succeeds once keeps succeeding when repeated (for FasterPayments, for as
      long as the starting balance covers every debit; a negative amount only raises the
      balance), and each repetition debits again. */
  lemma {:induction false} RepeatedPaymentsDebitEachTime(accounts: map<string, Account>, request: MakePaymentRequest, n: nat)
    requires n > 0 ==> Pay(accounts, request).0.success
    requires request.debtorAccountNumber in accounts
    requires request.paymentScheme == FasterPayments ==>
      n * request.amount <= accounts[request.debtorAccountNumber].balance
    ensures var out := PayRepeatedly(accounts, request, n);
            (forall i :: 0 <= i < n ==> out.0[i].success) &&
            out.1[request.debtorAccountNumber].balance
              == accounts[request.debtorAccountNumber].balance - n * request.amount
  {
    if n > 0 {
      var key := request.debtorAccountNumber;
      var next := Pay(accounts, request).1;
      var before, after := accounts[key], next[key];
      assert after == before.(balance := before.balance - request.amount);
      if n > 1 {
        match request.paymentScheme
        case FasterPayments =>
          if request.amount >= 0 {
            assert (n - 1) * request.amount >= request.amount;
          }
          FasterPaymentsNeedsFunds(request, after);
        case Chaps =>
          ChapsNeedsLiveAccount(request, before);
          ChapsNeedsLiveAccount(request, after);
        case Bacs =>
          BacsAlwaysSucceeds(request, after);
      }
      assert (n - 1) * request.amount == n * request.amount - request.amount;
      RepeatedPaymentsDebitEachTime(next, request, n - 1);
    }
  }

  // ---- The six unit-test scenarios ----

  lemma UnitTestScenarios()
    ensures !Pay(map[], MakePaymentRequest("", FasterPayments, 5)).0.success
    ensures forall s: PaymentScheme ::
      !Pay(map["A" := Account("A", 0, Live, 0)], MakePaymentRequest("A", s, 0)).0.success
    ensures !Pay(map["A" := Account("A", FlagsOf({FasterPayments}), Live, 10)],
                 MakePaymentRequest("A", FasterPayments, 20)).0.success
    ensures forall st: AccountStatus :: st != Live ==>
      !Pay(map["A" := Account("A", FlagsOf({Chaps}), st, 0)], MakePaymentRequest("A", Chaps, 0)).0.success
    ensures forall s: PaymentScheme ::
      var out := Pay(map["A" := Account("A", FlagsOf({s}), Live, 20)], MakePaymentRequest("A", s, 10));
      out.0.success && out.1["A"].balance == 10
  {
  }

  /** Two identical Bacs payments against one account through the service and its store. */
  method BacsPaymentTwice() returns (first: MakePaymentResult, second: MakePaymentResult, balance: int)
    ensures first.success && second.success
    ensures balance == -5
  {
    var store := new DataStore(map["12345678" := Account("12345678", FlagsOf({Bacs}), Disabled, 15)]);
    var service := new PaymentService(store);
    var request := MakePaymentRequest("12345678", Bacs, 10);
    first := service.MakePayment(request);
    second := service.MakePayment(request);
    assert |store.updates| == 2;
    balance := store.accounts["12345678"].balance;
  }
}
