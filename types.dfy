/** The value types of the governance engine: PII categories and their
    placeholders, actions, configuration, statistics, matches, detection
    results, receipts and governance results. */
module Types {

  datatype Option<+T> = None | Some(value: T)

  /** An unsigned byte. */
  newtype byte = x: int | 0 <= x < 256

  /** The ten categories of personally identifiable information, in
      declaration order. */
  datatype PiiType =
    | Ssn
    | CreditCard
    | Email
    | Phone
    | Address
    | IpAddress
    | DateOfBirth
    | Passport
    | DriversLicense
    | BankAccount

  /** Position of a category in declaration order (0 to 9). */
  function Rank(k: PiiType): (n: nat)
    ensures n < 10
  {
    match k
    case Ssn => 0
    case CreditCard => 1
    case Email => 2
    case Phone => 3
    case Address => 4
    case IpAddress => 5
    case DateOfBirth => 6
    case Passport => 7
    case DriversLicense => 8
    case BankAccount => 9
  }

  /** The name inside a category's placeholder, in capitals. */
  function Tag(k: PiiType): (t: string)
    ensures t != [] && forall i :: 0 <= i < |t| ==> 'A' <= t[i] <= 'Z'
  {
    match k
    case Ssn => "SSN"
    case CreditCard => "CARD"
    case Email => "EMAIL"
    case Phone => "PHONE"
    case Address => "ADDRESS"
    case IpAddress => "IP"
    case DateOfBirth => "DOB"
    case Passport => "PASSPORT"
    case DriversLicense => "DL"
    case BankAccount => "ACCOUNT"
  }

  const RedactedSuffix: string := "_REDACTED]"

  /** Bracketed, ending in "_REDACTED]", and free of '$', so that the regex
      crate's replace_all inserts it literally. */
  predicate IsPlaceholder(ph: string)
  {
    10 < |ph| && ph[0] == '[' && ph[|ph| - 10..] == RedactedSuffix && '$' !in ph
  }

  /** The fixed placeholder that replaces a match of category `k`:
      "[SSN_REDACTED]", "[CARD_REDACTED]", "[EMAIL_REDACTED]" and so on. It
      is a placeholder in the sense above, and the category's tag can be read
      back from between the bracket and the suffix. */
  function Redaction(k: PiiType): (ph: string)
    ensures IsPlaceholder(ph)
    ensures ph[1..|ph| - 10] == Tag(k)
  {
    var t := Tag(k);
    var ph := "[" + t + RedactedSuffix;
    assert ph[|ph| - 10..] == RedactedSuffix;
    assert ph[1..|ph| - 10] == t;
    assert forall i :: 0 <= i < |ph| ==> ph[i] != '$' by {
      forall i | 0 <= i < |ph| ensures ph[i] != '$' {
        if 1 <= i < 1 + |t| {
          assert ph[i] == t[i - 1];
        } else if i > 0 {
          assert ph[i] == RedactedSuffix[i - 1 - |t|];
        }
      }
    }
    ph
  }

  /** No two categories share a placeholder, so the redacted text says which
      category each replaced piece belonged to. */
  lemma RedactionInjective(j: PiiType, k: PiiType)
    ensures Redaction(j) == Redaction(k) <==> j == k
  {
    if Redaction(j) == Redaction(k) {
      assert Tag(j) == Tag(k);
    }
  }

  /** The variant name as the derived Debug formatting prints it. */
  function DebugName(k: PiiType): (n: string)
    ensures n != [] && 'A' <= n[0] <= 'Z'
    ensures forall i :: 0 <= i < |n| ==> 'A' <= n[i] <= 'Z' || 'a' <= n[i] <= 'z'
  {
    match k
    case Ssn => "Ssn"
    case CreditCard => "CreditCard"
    case Email => "Email"
    case Phone => "Phone"
    case Address => "Address"
    case IpAddress => "IpAddress"
    case DateOfBirth => "DateOfBirth"
    case Passport => "Passport"
    case DriversLicense => "DriversLicense"
    case BankAccount => "BankAccount"
  }

  datatype GovernanceAction = Allow | Deny | Redact | Escalate

  /** The default action is Redact. */
  const DefaultAction: GovernanceAction := Redact

  datatype TorkConfig = TorkConfig(policyVersion: string, defaultAction: GovernanceAction)

  /** Policy version "1.0.0" with the default action. */
  const DefaultConfig: TorkConfig := TorkConfig("1.0.0", DefaultAction)

  datatype ActionCounts = ActionCounts(allow: nat, deny: nat, redact: nat, escalate: nat)

  /** The counter that belongs to action `a`. */
  function CountFor(c: ActionCounts, a: GovernanceAction): nat
  {
    match a
    case Allow => c.allow
    case Deny => c.deny
    case Redact => c.redact
    case Escalate => c.escalate
  }

  datatype TorkStats = TorkStats(
    totalCalls: nat,
    totalPiiDetected: nat,
    totalProcessingTimeNs: nat,
    actionCounts: ActionCounts)

  /** Every counter zero: the stats of a new engine and after a reset. */
  const ZeroStats: TorkStats := TorkStats(0, 0, 0, ActionCounts(0, 0, 0, 0))

  /** One occurrence of a category, as a half-open range of the ORIGINAL text. */
  datatype PiiMatch = PiiMatch(kind: PiiType, value: string, start: nat, end: nat)

  datatype DetectionResult = DetectionResult(
    hasPii: bool,
    types: seq<PiiType>,
    count: nat,
    matches: seq<PiiMatch>,
    redactedText: string)

  /** A point in UTC time; the model treats it as an opaque number. */
  type Timestamp = int

  datatype GovernanceReceipt = GovernanceReceipt(
    receiptId: string,
    timestamp: Timestamp,
    inputHash: string,
    outputHash: string,
    action: GovernanceAction,
    policyVersion: string,
    processingTimeNs: nat)

  datatype GovernanceResult = GovernanceResult(
    action: GovernanceAction,
    output: string,
    pii: DetectionResult,
    receipt: GovernanceReceipt)
}
