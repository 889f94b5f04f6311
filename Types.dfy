/** Value types of the payment service: the two enumerations, the account record,
    the request and the result, and the allowed-schemes flag set with its set view. */
module Types {

  datatype Option<+T> = None | Some(value: T)

  /** The payment schemes. Their enumeration is declared outside the modelled files; the
      order FasterPayments, Chaps, Bacs (ordinals 0, 1, 2) is assumed. */
  datatype PaymentScheme = FasterPayments | Chaps | Bacs

  datatype AccountStatus = Live | Disabled | InboundPaymentsOnly

  /** The allowed-schemes flag set: an int-backed flags enumeration, one bit per scheme. */
  type SchemeFlags = bv32

  /** The bits that belong to some scheme (FasterPayments | Chaps | Bacs). */
  const SchemeBits: SchemeFlags := 7

  datatype Account = Account(
    accountNumber: string,
    allowedPaymentSchemes: SchemeFlags,
    status: AccountStatus,
    balance: int)

  /** Creditor details are not modelled: validation never reads them. */
  datatype MakePaymentRequest = MakePaymentRequest(
    debtorAccountNumber: string,
    paymentScheme: PaymentScheme,
    amount: int)

  datatype MakePaymentResult = MakePaymentResult(success: bool)

  /** Position of a scheme in its enumeration. */
  function Ordinal(s: PaymentScheme): (n: nat)
    ensures n < 3
  {
    match s
    case FasterPayments => 0
    case Chaps => 1
    case Bacs => 2
  }

  /** The flag enumeration's HasFlag: every bit of `flag` is set in `flags`, so that
      adding `flag` to `flags` changes nothing; the empty flag is always present. */
  predicate HasFlag(flags: SchemeFlags, flag: SchemeFlags): (has: bool)
    ensures has <==> flags | flag == flags
    ensures flag == 0 ==> has
  {
    flags & flag == flag
  }
}
