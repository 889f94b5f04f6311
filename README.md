# ClearBank payment service, modelled in Dafny

This project models the payment validator/executor of the ClearBank developer test
(`PaymentService`). `MakePayment` looks up the debtor account in the data store and
runs three checks in order: the account exists; the account's allowed-schemes flags
include the request's scheme; and the scheme's own rule holds. FasterPayments needs
a balance that covers the amount. Chaps needs a Live account. Bacs has no extra rule.
Only when every check passes is the balance debited and the account written back
to the store, once. `PaymentSchemeToFlag` maps a scheme to the bit
`1 << ordinal` of the allowed-schemes flags.

Files:

- `Types.dfy` (module `Types`): the two enumerations, the scheme ordinal, the
  allowed-schemes flags (`bv32`, the width of an int-backed flags enumeration) and
  `HasFlag`, the account, the request and the result.
- `DataStore.dfy` (module `Data`): the data store as a class over a
  `map<string, Account>`. A ghost log `updates` records every `UpdateAccount` call,
  so "updated exactly once" and "never updated" can be stated. `Valid()` says every
  account is stored under its own account number.
- `PaymentService.dfy` (module `Services`): the flag mapping, the set view of the
  flags (`Schemes`, `FlagsOf`), the validation, and the `PaymentService` class whose
  `MakePayment` mutates the store. `Pay` is the function that specifies
  `MakePayment` on the store's contents. `ApplicableRules`, `RulePasses` and
  `AllRulesPass` give an independent statement of "success iff every rule that
  applies to the scheme passes". `GetValidationResult` is proved against it.
- `PaymentProperties.dfy` (module `PaymentProperties`): lemmas about the flags, each
  scheme's rule, the store after a payment, and repeated payments. It also holds the
  six unit-test scenarios as one lemma, plus a client method that drives the class
  twice.

Amounts are never checked for sign, so the model does not require them to be
non-negative. A negative FasterPayments amount therefore passes the
funds check whenever the balance is at least that amount, and the "debit" then
raises the balance.

## Model

| member | source | states |
|---|---|---|
| `Types.Ordinal` | src/ClearBank.DeveloperTest/Services/PaymentService.cs:76 | the `(int)` cast of a scheme gives its position in the enumeration, 0 to 2, under the assumed order FasterPayments, Chaps, Bacs |
| `Services.PaymentSchemeToFlag` | src/ClearBank.DeveloperTest/Services/PaymentService.cs:74-77 | the flag has exactly one bit set, inside the three scheme bits; under the assumed enumeration order that is 1 for FasterPayments, 2 for Chaps, 4 for Bacs |
| `Services.Schemes` | src/ClearBank.DeveloperTest/Services/PaymentService.cs:48 | a scheme is in the set view of the flags exactly when `HasFlag` holds for its bit |
| `Services.FlagsOf` | src/ClearBank.DeveloperTest/Services/PaymentService.cs:74-77 | turning a set of schemes into flags and reading them back yields the same set; only scheme bits are set |
| `Types.HasFlag` | src/ClearBank.DeveloperTest/Services/PaymentService.cs:48 | the flags have every bit of the tested flag exactly when or-ing the flag in leaves them unchanged; the empty flag is always present |
| `Data.Find` | src/ClearBank.DeveloperTest/Services/PaymentService.cs:25 | the lookup finds an account exactly when the number is a key of the store, and then it is the stored account |
| `Services.Debit` | src/ClearBank.DeveloperTest/Services/PaymentService.cs:31 | the balance drops by the amount; account number, allowed schemes and status stay as they were |
| `Services.GetValidationResult` | src/ClearBank.DeveloperTest/Services/PaymentService.cs:38-72 | success holds exactly when the account is present and every rule that applies to the request's scheme passes (scheme permitted; funds for FasterPayments; Live for Chaps) |
| `Services.Pay` | src/ClearBank.DeveloperTest/Services/PaymentService.cs:22-36 | the result is the validation result for the looked-up account; on failure no account changes; on success only the debtor's balance changes, by minus the amount; no key is added or removed |
| `Services.PaymentService.constructor` | src/ClearBank.DeveloperTest/Services/PaymentService.cs:17-20 | the service keeps the data store it is given |
| `Services.PaymentService.MakePayment` | src/ClearBank.DeveloperTest/Services/PaymentService.cs:22-36 | the returned result and the new store contents are those of `Pay` on the old contents; the store's update log grows by exactly the debited account on success and not at all on failure; the store stays keyed by account number |
| `Data.DataStore.GetAccount` | src/ClearBank.DeveloperTest/Services/PaymentService.cs:25 | returns the account with the requested number, or nothing when there is no such account |
| `Data.DataStore.UpdateAccount` | src/ClearBank.DeveloperTest/Services/PaymentService.cs:32 | stores the account under its own number, leaves the others alone, and logs the call once |
| `PaymentProperties.DistinctSchemesDistinctBits` | src/ClearBank.DeveloperTest/Services/PaymentService.cs:74-77 | two schemes get disjoint bits exactly when they differ, and equal flags exactly when they are the same scheme |
| `PaymentProperties.FlagFollowsEnumerationOrder` | src/ClearBank.DeveloperTest/Services/PaymentService.cs:74-77 | a scheme's flag is one shifted left by its ordinal, and shifting it back by the ordinal gives one |
| `PaymentProperties.SchemesRoundTrip` | src/ClearBank.DeveloperTest/Services/PaymentService.cs:48 | reading the flags as a set and writing the set back keeps exactly the three scheme bits |
| `PaymentProperties.SchemesCombineIndependently` | src/ClearBank.DeveloperTest/Services/PaymentService.cs:48 | setting one scheme's bit adds that scheme to the set view and changes no other scheme |
| `PaymentProperties.ValidationIgnoresUnknownBits` | src/ClearBank.DeveloperTest/Services/PaymentService.cs:48-52 | flag bits outside the three scheme bits never change the validation result |
| `PaymentProperties.MissingAccountFails` | src/ClearBank.DeveloperTest/Services/PaymentService.cs:42-46 | with no account under the debtor number the payment fails and the store contents are unchanged |
| `PaymentProperties.UnpermittedSchemeFails` | src/ClearBank.DeveloperTest/Services/PaymentService.cs:48-52 | a scheme whose bit the account lacks fails for every balance, status and amount |
| `PaymentProperties.FasterPaymentsNeedsFunds` | src/ClearBank.DeveloperTest/Services/PaymentService.cs:56-61 | a permitted FasterPayments payment succeeds exactly when balance is at least the amount, whatever the status |
| `PaymentProperties.ChapsNeedsLiveAccount` | src/ClearBank.DeveloperTest/Services/PaymentService.cs:63-68 | a permitted Chaps payment succeeds exactly when the account is Live, whatever the balance and amount |
| `PaymentProperties.BacsAlwaysSucceeds` | src/ClearBank.DeveloperTest/Services/PaymentService.cs:54-69 | a permitted Bacs payment succeeds for every balance, status and amount |
| `PaymentProperties.BacsMayOverdraw` | src/ClearBank.DeveloperTest/Services/PaymentService.cs:29-33 | a permitted Bacs payment larger than the balance succeeds and leaves the balance negative |
| `PaymentProperties.PayKeepsAccountsKeyed` | src/ClearBank.DeveloperTest/Services/PaymentService.cs:29-33 | after a payment every account is still stored under its own number |
| `PaymentProperties.PaymentIsNotIdempotent` | src/ClearBank.DeveloperTest/Services/PaymentService.cs:25-35 | two successful identical payments debit twice the amount, and for a nonzero amount the second one changes the store again |
| `PaymentProperties.PayRepeatedly` | src/ClearBank.DeveloperTest/Services/PaymentService.cs:22-36 | making the same request `n` times yields `n` results and keeps the set of account numbers |
| `PaymentProperties.RepeatedPaymentsDebitEachTime` | src/ClearBank.DeveloperTest/Services/PaymentService.cs:22-36 | a payment that succeeds once keeps succeeding when repeated `n` times, as long as the starting balance covers all `n` FasterPayments debits, and leaves the balance lowered by `n` times the amount |
| `PaymentProperties.UnitTestScenarios` | src/ClearBank.DeveloperTest.Tests/Services/PaymentServicesTests.cs:26-191 | the unit tests' outcomes: no account fails; no allowed scheme fails; FasterPayments balance 10, amount 20 fails; Chaps not Live fails; each scheme with balance 20, amount 10 succeeds and leaves 10 |
| `PaymentProperties.BacsPaymentTwice` | src/ClearBank.DeveloperTest/Services/PaymentService.cs:25-35 | through the service and its store, two identical Bacs payments of 10 against a balance of 15 both succeed and leave -5 |

## Left out

- The `PaymentScheme` and `AllowedPaymentSchemes` enumerations: their declarations are not part of this model. The scheme order FasterPayments, Chaps, Bacs (ordinals 0, 1, 2) is assumed. Each named flag value, such as the tests' `AllowedPaymentSchemes.Chaps`, is taken to be `1 << ordinal` of the scheme with the same name; the model builds these values with `FlagsOf`. If the enumerations disagree with that (for example if Bacs came before Chaps), the source's flag test would check the wrong bit, and the model does not capture that.
- Logging and dependency injection: the source leaves both out, and they carry no logic.
- The concrete data stores: the store is modelled only by its get and update behaviour over a map. The account and store type declarations are not part of this model either. Store-write failures are not modelled.
- Data.DataStore.UpdateAccount: how a store treats an account number it does not hold is not visible. The model inserts such an account. `MakePayment` only updates accounts it has just found, so this never arises there.
- Aliasing: in the source, `GetAccount` returns a reference, which `MakePayment` mutates before calling `UpdateAccount`. The model's store returns a copy, and only `UpdateAccount` changes the stored account.
- The account's key: the model assumes each account carries its own account number and that `UpdateAccount` stores it under that number.
- Concurrency: overlapping requests on one account are out of scope, and so is the unguarded read-then-write.
- `decimal` precision and overflow: balance and amount are unbounded integers.
- Incoming integers cast to `PaymentScheme` that are not one of the three declared values cannot be represented. Neither can an `AllowedPaymentSchemes` value wider than 32 bits.
- Creditor details and every other request field: not modelled, because validation never reads them.
