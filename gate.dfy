/** The request gate shared by the framework adapters (TorkFairing in the
    Rocket adapter) and the guard through which a handler reads the
    outcome. */
module Gate {
  import opened Types
  import opened Matching
  import opened Receipts
  import opened Detection
  import opened Engine
  import opened Middleware

  /** The HTTP methods whose bodies are governed; the comparison is exact
      and case-sensitive. */
  const MutatingMethods: seq<string> := ["POST", "PUT", "PATCH"]

  /** The text the gate hands to the engine for a request, if any: only a
      mutating method, on a path that no skip prefix and some protect prefix
      starts, with a body that yields content. A skip match wins over
      protection. */
  function Admitted(httpMethod: string, path: string, body: Option<Json>, cfg: MiddlewareConfig): (c: Option<string>)
    ensures c.Some? <==>
      && httpMethod in MutatingMethods
      && !ShouldSkipPath(path, cfg)
      && ShouldProtectPath(path, cfg)
      && ExtractContent(body, cfg).Some?
    ensures c.Some? ==> c == ExtractContent(body, cfg) && c.value != []
  {
    if httpMethod !in MutatingMethods then None
    else if ShouldSkipPath(path, cfg) then None
    else if !ShouldProtectPath(path, cfg) then None
    else ExtractContent(body, cfg)
  }

  /** Under the default configuration a request is governed exactly when it
      is a POST, PUT or PATCH under "/api/" whose body yields content. */
  lemma DefaultAdmits(httpMethod: string, path: string, body: Option<Json>)
    ensures Admitted(httpMethod, path, body, DefaultMiddlewareConfig).Some? <==>
      httpMethod in MutatingMethods && "/api/" <= path
      && ExtractContent(body, DefaultMiddlewareConfig).Some?
  {
    DefaultPaths(path);
  }

  /** The gate: an engine and the middleware configuration. */
  class TorkFairing {
    const tork: Tork
    const config: MiddlewareConfig

    /** TorkFairing::new: a fresh default engine, the default configuration. */
    constructor New(lib: RegexLibrary)
      ensures fresh(tork) && config == DefaultMiddlewareConfig
      ensures tork.config == DefaultConfig && tork.stats == ZeroStats && tork.BuiltFrom(lib)
      ensures tork.Valid()
    {
      config := DefaultMiddlewareConfig;
      tork := new Tork.New(lib);
    }

    /** TorkFairing::with_config: a fresh default engine, the given
        configuration. */
    constructor WithConfig(cfg: MiddlewareConfig, lib: RegexLibrary)
      ensures fresh(tork) && config == cfg
      ensures tork.config == DefaultConfig && tork.stats == ZeroStats && tork.BuiltFrom(lib)
      ensures tork.Valid()
    {
      config := cfg;
      tork := new Tork.New(lib);
    }

    /** TorkFairing::with_tork: an existing engine, the default
        configuration. */
    constructor WithTork(t: Tork)
      ensures tork == t && config == DefaultMiddlewareConfig
    {
      tork := t;
      config := DefaultMiddlewareConfig;
    }

    /** TorkFairing::with_tork_and_config. */
    constructor WithTorkAndConfig(t: Tork, cfg: MiddlewareConfig)
      ensures tork == t && config == cfg
    {
      tork := t;
      config := cfg;
    }

    /** process: None, with the engine untouched, unless the request is
        admitted; otherwise exactly what govern returns for the extracted
        text, with the engine's counters advanced by that one call. */
    method Process(httpMethod: string, path: string, body: Option<Json>,
                   sha: string -> Digest, env: CallEnv) returns (r: Option<GovernanceResult>)
      requires tork.Valid()
      modifies tork
      ensures tork.Valid() && tork.config == old(tork.config)
      ensures r.Some? <==> Admitted(httpMethod, path, body, config).Some?
      ensures r.None? ==> tork.stats == old(tork.stats)
      ensures r.Some? ==>
        var content := Admitted(httpMethod, path, body, config).value;
        && IsGovernResult(tork.config, tork.patterns, sha, env, content, r.value)
        && OneCallLater(old(tork.stats), tork.stats, r.value.action, r.value.pii.hasPii,
                        r.value.receipt.processingTimeNs)
    {
      if httpMethod !in MutatingMethods {
        return None;
      }
      if ShouldSkipPath(path, config) {
        return None;
      }
      if !ShouldProtectPath(path, config) {
        return None;
      }
      var content := ExtractContent(body, config);
      if content.None? {
        return None;
      }
      var g := tork.Govern(content.value, sha, env);
      r := Some(g);
    }

    /** should_block: a request is blocked exactly when the action is Deny. */
    static function ShouldBlock(r: GovernanceResult): (b: bool)
      ensures b <==> r.action == Deny
    {
      r.action == Deny
    }
  }

  /** A blocked request is one in which PII was found under a Deny policy;
      its text was not altered. Under the default configuration nothing is
      ever blocked. */
  lemma BlockedOnlyByDenyPolicy(cfg: TorkConfig, ps: seq<Pattern>, sha: string -> Digest,
                                env: CallEnv, input: string, r: GovernanceResult)
    requires IsGovernResult(cfg, ps, sha, env, input, r)
    ensures TorkFairing.ShouldBlock(r) <==> r.pii.hasPii && cfg.defaultAction == Deny
    ensures TorkFairing.ShouldBlock(r) ==> r.output == input && r.pii.count > 0
    ensures cfg == DefaultConfig ==> !TorkFairing.ShouldBlock(r)
  {
  }

  /** The request guard: the gate's outcome as the handler sees it. */
  datatype TorkGuard = TorkGuard(result: Option<GovernanceResult>)
  {
    /** Governance was applied. */
    function HasResult(): (b: bool)
      ensures b <==> result.Some?
    {
      result.Some?
    }

    /** Allowed when the action is Allow, and by default when no governance
        was applied. */
    function IsAllowed(): (b: bool)
      ensures b <==> result.None? || result.value.action == Allow
    {
      match result
      case None => true
      case Some(r) => r.action == Allow
    }

    /** Denied only when a result says Deny. */
    function IsDenied(): (b: bool)
      ensures b <==> result.Some? && result.value.action == Deny
    {
      match result
      case None => false
      case Some(r) => r.action == Deny
    }

    /** Redacted only when a result says Redact. */
    function IsRedacted(): (b: bool)
      ensures b <==> result.Some? && result.value.action == Redact
    {
      match result
      case None => false
      case Some(r) => r.action == Redact
    }

    /** The output of the result, if any. */
    function Output(): (o: Option<string>)
      ensures o.Some? <==> result.Some?
      ensures o.Some? ==> o.value == result.value.output
    {
      match result
      case None => None
      case Some(r) => Some(r.output)
    }

    /** The receipt id of the result, if any. */
    function ReceiptId(): (id: Option<string>)
      ensures id.Some? <==> result.Some?
      ensures id.Some? ==> id.value == result.value.receipt.receiptId
    {
      match result
      case None => None
      case Some(r) => Some(r.receipt.receiptId)
    }
  }

  /** At most one verdict holds; an Escalate result has none of them; an
      empty guard reports allowed, not denied, not redacted, and no output
      or receipt id. */
  lemma GuardVerdicts(g: TorkGuard)
    ensures !(g.IsAllowed() && g.IsDenied()) && !(g.IsAllowed() && g.IsRedacted())
    ensures !(g.IsDenied() && g.IsRedacted())
    ensures g.HasResult() && g.result.value.action == Escalate ==>
      !g.IsAllowed() && !g.IsDenied() && !g.IsRedacted()
    ensures !g.HasResult() ==>
      g.IsAllowed() && !g.IsDenied() && !g.IsRedacted() && g.Output().None? && g.ReceiptId().None?
  {
  }

  /** A guard over a governed text: allowed exactly when no PII was found or
      the policy allows, redacted exactly when PII was found under Redact,
      and its output is the redacted text in that case and the input
      otherwise; the receipt id is the one the UUID gives. */
  lemma GuardOfGoverned(cfg: TorkConfig, ps: seq<Pattern>, sha: string -> Digest,
                        env: CallEnv, input: string, r: GovernanceResult)
    requires IsGovernResult(cfg, ps, sha, env, input, r)
    ensures TorkGuard(Some(r)).IsAllowed() <==> !r.pii.hasPii || cfg.defaultAction == Allow
    ensures TorkGuard(Some(r)).IsRedacted() <==> r.pii.hasPii && cfg.defaultAction == Redact
    ensures TorkGuard(Some(r)).Output() == Some(if TorkGuard(Some(r)).IsRedacted() then r.pii.redactedText else input)
    ensures TorkGuard(Some(r)).ReceiptId() == Some(GenerateReceiptId(env.uuid))
  {
  }

  /** Under the default configuration a text with an SSN-shaped run (as the
      ASCII reading of the Ssn pattern sees it) is redacted, not denied, and
      the guard reports it so. */
  lemma SsnRedactedUnderDefaults(lib: RegexLibrary, sha: string -> Digest, env: CallEnv,
                                 input: string, r: GovernanceResult, j: nat)
    requires forall s :: lib(Ssn)(s) == AsciiSsnFind(s)
    requires SsnAt(input, j)
    requires IsGovernResult(DefaultConfig, PiiPatterns(lib), sha, env, input, r)
    ensures r.pii.hasPii && Ssn in r.pii.types && r.output == r.pii.redactedText
    ensures TorkGuard(Some(r)).HasResult() && TorkGuard(Some(r)).IsRedacted()
    ensures !TorkGuard(Some(r)).IsDenied() && !TorkFairing.ShouldBlock(r)
  {
    SsnShapedTextDetected(lib, input, j);
  }
}
