/** The framework-independent request helpers: the middleware
    configuration, pulling the text to govern out of a JSON body, the path
    filters, and the error body sent back for a blocked request. */
module Middleware {
  import opened Types

  /** Which paths are governed, which are exempt, and which JSON fields may
      hold the text. */
  datatype MiddlewareConfig = MiddlewareConfig(
    protectedPaths: seq<string>,
    skipPaths: seq<string>,
    contentFields: seq<string>)

  /** Protects "/api/", skips nothing, and looks for the text in "content",
      "message", "text", "prompt", "query" and "input", in that order. */
  const DefaultMiddlewareConfig: MiddlewareConfig :=
    MiddlewareConfig(["/api/"], [], ["content", "message", "text", "prompt", "query", "input"])

  /** A parsed JSON value; numbers are kept as their text. */
  datatype Json =
    | JNull
    | JBool(b: bool)
    | JNumber(text: string)
    | JString(s: string)
    | JArray(items: seq<Json>)
    | JObject(fields: map<string, Json>)

  /** Field `name` of the object holds a non-empty JSON string. */
  predicate HoldsContent(fields: map<string, Json>, name: string)
  {
    name in fields && fields[name].JString? && fields[name].s != []
  }

  /** The value of the first of `names` that holds a non-empty string. */
  function FirstContent(fields: map<string, Json>, names: seq<string>): (r: Option<string>)
    ensures r.Some? <==> exists i :: 0 <= i < |names| && HoldsContent(fields, names[i])
    ensures r.Some? ==> r.value != []
    ensures r.Some? ==>
      exists i :: 0 <= i < |names| && HoldsContent(fields, names[i]) && r.value == fields[names[i]].s
  {
    if names == [] then None
    else if HoldsContent(fields, names[0]) then
      assert HoldsContent(fields, names[0]);
      Some(fields[names[0]].s)
    else
      var r := FirstContent(fields, names[1..]);
      assert forall i :: 1 <= i < |names| ==> names[i] == names[1..][i - 1];
      r
  }

  /** Later fields are never consulted once one qualifies: the text comes
      from the first listed field holding a non-empty string. */
  lemma {:induction false} FirstQualifyingFieldWins(fields: map<string, Json>, names: seq<string>, i: nat)
    requires i < |names| && HoldsContent(fields, names[i])
    requires forall j :: 0 <= j < i ==> !HoldsContent(fields, names[j])
    ensures FirstContent(fields, names) == Some(fields[names[i]].s)
  {
    if i > 0 {
      assert forall j :: 0 <= j < i - 1 ==> names[1..][j] == names[j + 1];
      FirstQualifyingFieldWins(fields, names[1..], i - 1);
    }
  }

  /** extract_content over a body that is `None` when it does not parse as
      JSON: only an object with a qualifying field yields text. */
  function ExtractContent(body: Option<Json>, cfg: MiddlewareConfig): (r: Option<string>)
    ensures r.Some? <==>
      && body.Some? && body.value.JObject?
      && exists i :: 0 <= i < |cfg.contentFields| && HoldsContent(body.value.fields, cfg.contentFields[i])
    ensures r.Some? ==> r.value != []
  {
    match body
    case None => None
    case Some(JObject(fields)) => FirstContent(fields, cfg.contentFields)
    case Some(_) => None
  }

  /** Some element of `prefixes` is a prefix of `path`. */
  function AnyPrefix(prefixes: seq<string>, path: string): (b: bool)
    ensures b <==> exists i :: 0 <= i < |prefixes| && prefixes[i] <= path
  {
    if prefixes == [] then false
    else if prefixes[0] <= path then true
    else
      assert forall i :: 1 <= i < |prefixes| ==> prefixes[i] == prefixes[1..][i - 1];
      AnyPrefix(prefixes[1..], path)
  }

  /** should_skip_path: some skip prefix starts the path. */
  function ShouldSkipPath(path: string, cfg: MiddlewareConfig): (b: bool)
    ensures b <==> exists i :: 0 <= i < |cfg.skipPaths| && cfg.skipPaths[i] <= path
  {
    AnyPrefix(cfg.skipPaths, path)
  }

  /** should_protect_path: some protected prefix starts the path. */
  function ShouldProtectPath(path: string, cfg: MiddlewareConfig): (b: bool)
    ensures b <==> exists i :: 0 <= i < |cfg.protectedPaths| && cfg.protectedPaths[i] <= path
  {
    AnyPrefix(cfg.protectedPaths, path)
  }

  /** The default configuration skips no path and protects exactly the paths
      under "/api/". */
  lemma DefaultPaths(path: string)
    ensures !ShouldSkipPath(path, DefaultMiddlewareConfig)
    ensures ShouldProtectPath(path, DefaultMiddlewareConfig) <==> "/api/" <= path
  {
    var cfg := DefaultMiddlewareConfig;
    assert cfg.protectedPaths[0] == "/api/";
  }

  /** A configuration without protected prefixes governs nothing. */
  lemma NoProtectedPrefixes(path: string, cfg: MiddlewareConfig)
    requires cfg.protectedPaths == []
    ensures !ShouldProtectPath(path, cfg)
  {
  }

  /** The JSON body of a blocked request. */
  datatype ErrorResponse = ErrorResponse(error: string, receiptId: string, piiTypes: seq<string>)

  const BlockedMessage: string := "Request blocked by governance policy"

  /** ASCII lowercasing; the category names are ASCII, where Unicode
      lowercasing agrees with it. */
  function LowerAscii(c: char): char
  {
    if 'A' <= c <= 'Z' then (c as int - 'A' as int + 'a' as int) as char else c
  }

  function Lowercase(s: string): (r: string)
    ensures |r| == |s|
  {
    seq(|s|, i requires 0 <= i < |s| => LowerAscii(s[i]))
  }

  /** The category's Debug name in lowercase: "ssn", "creditcard", "email",
      and so on. */
  function LowerName(k: PiiType): (n: string)
    ensures n == Lowercase(DebugName(k))
  {
    match k
    case Ssn => LowerSsn(); "ssn"
    case CreditCard => LowerCreditCard(); "creditcard"
    case Email => LowerEmail(); "email"
    case Phone => LowerPhone(); "phone"
    case Address => LowerAddress(); "address"
    case IpAddress => LowerIpAddress(); "ipaddress"
    case DateOfBirth => LowerDateOfBirth(); "dateofbirth"
    case Passport => LowerPassport(); "passport"
    case DriversLicense => LowerDriversLicense(); "driverslicense"
    case BankAccount => LowerBankAccount(); "bankaccount"
  }

  lemma LowerSsn() ensures Lowercase("Ssn") == "ssn" {}
  lemma LowerCreditCard() ensures Lowercase("CreditCard") == "creditcard" {}
  lemma LowerEmail() ensures Lowercase("Email") == "email" {}
  lemma LowerPhone() ensures Lowercase("Phone") == "phone" {}
  lemma LowerAddress() ensures Lowercase("Address") == "address" {}
  lemma LowerIpAddress() ensures Lowercase("IpAddress") == "ipaddress" {}
  lemma LowerDateOfBirth() ensures Lowercase("DateOfBirth") == "dateofbirth" {}
  lemma LowerPassport() ensures Lowercase("Passport") == "passport" {}
  lemma LowerDriversLicense() ensures Lowercase("DriversLicense") == "driverslicense" {}
  lemma LowerBankAccount() ensures Lowercase("BankAccount") == "bankaccount" {}

  /** Distinct categories keep distinct lowercase names. */
  lemma LowerNameInjective(j: PiiType, k: PiiType)
    ensures LowerName(j) == LowerName(k) <==> j == k
  {
  }

  /** ErrorResponse::from_result: the fixed message, the receipt id, and the
      lowercase name of each detected category in the result's order. */
  function FromResult(r: GovernanceResult): (e: ErrorResponse)
    ensures e.error == BlockedMessage && e.receiptId == r.receipt.receiptId
    ensures |e.piiTypes| == |r.pii.types|
    ensures forall i :: 0 <= i < |e.piiTypes| ==> e.piiTypes[i] == Lowercase(DebugName(r.pii.types[i]))
  {
    var types := r.pii.types;
    ErrorResponse(BlockedMessage, r.receipt.receiptId,
                  seq(|types|, i requires 0 <= i < |types| => LowerName(types[i])))
  }

  /** The error body names each category of the result once, and only
      those: a category is reported exactly when it is in the result, and no
      name repeats when the result's categories do not. */
  lemma ErrorNamesMatchTypes(r: GovernanceResult, k: PiiType)
    ensures LowerName(k) in FromResult(r).piiTypes <==> k in r.pii.types
    ensures (forall i, j :: 0 <= i < j < |r.pii.types| ==> r.pii.types[i] != r.pii.types[j]) ==>
      forall i, j :: 0 <= i < j < |FromResult(r).piiTypes| ==> FromResult(r).piiTypes[i] != FromResult(r).piiTypes[j]
  {
    var e := FromResult(r);
    var types := r.pii.types;
    if LowerName(k) in e.piiTypes {
      var i :| 0 <= i < |e.piiTypes| && e.piiTypes[i] == LowerName(k);
      LowerNameInjective(types[i], k);
    }
    if k in types {
      var i :| 0 <= i < |types| && types[i] == k;
      assert e.piiTypes[i] == LowerName(k);
    }
    forall i, j | 0 <= i < j < |e.piiTypes| && types[i] != types[j]
      ensures e.piiTypes[i] != e.piiTypes[j]
    {
      LowerNameInjective(types[i], types[j]);
    }
  }
}
