/** The payment validator/executor: the scheme-to-flag mapping, the ordered validation
    rules, and MakePayment, which debits and persists the debtor account on success. */
module Services {
  import opened Types
  import opened Data

  /** The flag bit of a scheme: one shifted left by the scheme's ordinal. */
  function PaymentSchemeToFlag(s: PaymentScheme): (f: SchemeFlags)
    ensures f != 0 && f & (f - 1) == 0
    ensures f & SchemeBits == f
    ensures s == FasterPayments ==> f == 1
    ensures s == Chaps ==> f == 2
    ensures s == Bacs ==> f == 4
  {
    (1 as SchemeFlags) << Ordinal(s)
  }

  /** The schemes a flag value enables; bits outside SchemeBits enable nothing. */
  function Schemes(flags: SchemeFlags): (ss: set<PaymentScheme>)
    ensures forall s :: s in ss <==> HasFlag(flags, PaymentSchemeToFlag(s))
  {
    (if flags & 1 != 0 then {FasterPayments} else {}) +
    (if flags & 2 != 0 then {Chaps} else {}) +
    (if flags & 4 != 0 then {Bacs} else {})
  }

  /** The flag value that enables exactly the given schemes. */
  function FlagsOf(ss: set<PaymentScheme>): (flags: SchemeFlags)
    ensures Schemes(flags) == ss
    ensures flags & SchemeBits == flags
  {
    var flags := (if FasterPayments in ss then PaymentSchemeToFlag(FasterPayments) else 0) |
                 (if Chaps in ss then PaymentSchemeToFlag(Chaps) else 0) |
                 (if Bacs in ss then PaymentSchemeToFlag(Bacs) else 0);
    assert (flags & 1 != 0 <==> FasterPayments in ss) && (flags & 2 != 0 <==> Chaps in ss) &&
           (flags & 4 != 0 <==> Bacs in ss);
    flags
  }

  /** The eligibility rules a payment can be subject to. */
  datatype Rule = SchemePermitted | SufficientFunds | AccountIsLive

  /** The rules that apply to a payment made under the given scheme. */
  function ApplicableRules(s: PaymentScheme): (rules: seq<Rule>)
    ensures SchemePermitted in rules
  {
    match s
    case FasterPayments => [SchemePermitted, SufficientFunds]
    case Chaps => [SchemePermitted, AccountIsLive]
    case Bacs => [SchemePermitted]
  }

  predicate RulePasses(rule: Rule, request: MakePaymentRequest, account: Account) {
    match rule
    case SchemePermitted => request.paymentScheme in Schemes(account.allowedPaymentSchemes)
    case SufficientFunds => account.balance >= request.amount
    case AccountIsLive => account.status == Live
  }

  /** Every rule applicable to the request's scheme passes for this account. */
  predicate AllRulesPass(request: MakePaymentRequest, account: Account) {
    forall rule :: rule in ApplicableRules(request.paymentScheme) ==> RulePasses(rule, request, account)
  }

  /** The ordered checks: account present, scheme permitted, then the scheme's own rule.
      Each failing check clears the success flag that starts out set. */
  function GetValidationResult(request: MakePaymentRequest, account: Option<Account>): (r: MakePaymentResult)
    ensures r.success <==> account.Some? && AllRulesPass(request, account.value)
  {
    var result := MakePaymentResult(true);
    assert SchemePermitted in ApplicableRules(request.paymentScheme);
    if account.None? then
      result.(success := false)
    else if !HasFlag(account.value.allowedPaymentSchemes, PaymentSchemeToFlag(request.paymentScheme)) then
      result.(success := false)
    else
      match request.paymentScheme
      case FasterPayments =>
        assert SufficientFunds in ApplicableRules(FasterPayments);
        if account.value.balance < request.amount then result.(success := false) else result
      case Chaps =>
        assert AccountIsLive in ApplicableRules(Chaps);
        if account.value.status != AccountStatus.Live then result.(success := false) else result
      case Bacs =>
        result
  }

  /** The account after `amount` is taken off its balance. */
  function Debit(account: Account, amount: int): (debited: Account)
    ensures debited.balance == account.balance - amount
    ensures debited.accountNumber == account.accountNumber
    ensures debited.allowedPaymentSchemes == account.allowedPaymentSchemes
    ensures debited.status == account.status
  {
    account.(balance := account.balance - amount)
  }

  /** MakePayment on the store's contents: the result and the accounts afterwards. */
  function Pay(accounts: map<string, Account>, request: MakePaymentRequest): (out: (MakePaymentResult, map<string, Account>))
    ensures out.0 == GetValidationResult(request, Find(accounts, request.debtorAccountNumber))
    ensures out.0.success <==>
      request.debtorAccountNumber in accounts && AllRulesPass(request, accounts[request.debtorAccountNumber])
    ensures !out.0.success ==> out.1 == accounts
    ensures out.1.Keys == accounts.Keys
    ensures forall k :: k in accounts && k != request.debtorAccountNumber ==> out.1[k] == accounts[k]
    ensures out.0.success ==>
      var before, after := accounts[request.debtorAccountNumber], out.1[request.debtorAccountNumber];
      after.balance == before.balance - request.amount &&
      after.accountNumber == before.accountNumber &&
      after.allowedPaymentSchemes == before.allowedPaymentSchemes &&
      after.status == before.status
  {
    var account := Find(accounts, request.debtorAccountNumber);
    var result := GetValidationResult(request, account);
    if result.success then
      (result, accounts[request.debtorAccountNumber := Debit(account.value, request.amount)])
    else
      (result, accounts)
  }

  class PaymentService {
    const dataStore: DataStore

    constructor (dataStore: DataStore)
      ensures this.dataStore == dataStore
    {
      this.dataStore := dataStore;
    }

    /** Validates the request against the debtor account and, only when every check
        passes, debits the account and persists it with a single update. */
    method MakePayment(request: MakePaymentRequest) returns (result: MakePaymentResult)
      requires dataStore.Valid()
      modifies dataStore
      ensures dataStore.Valid()
      ensures (result, dataStore.accounts) == Pay(old(dataStore.accounts), request)
      ensures dataStore.updates ==
        if result.success then old(dataStore.updates) + [dataStore.accounts[request.debtorAccountNumber]]
        else old(dataStore.updates)
    {
      var account := dataStore.GetAccount(request.debtorAccountNumber);
      result := GetValidationResult(request, account);
      if result.success {
        var debited := Debit(account.value, request.amount);
        dataStore.UpdateAccount(debited);
      }
    }
  }
}
