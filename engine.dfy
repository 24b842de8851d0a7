/** The governance engine `Tork`: a configuration, running statistics and
    the pattern registry; `Govern` decides an action and an output for one
    text, builds a receipt and bumps the counters. */
module Engine {
  import opened Types
  import opened Matching
  import opened Receipts
  import opened Detection

  /** What a call to govern takes from the outside world: the random UUID
      behind the receipt id, the UTC time of the receipt, and the elapsed
      time in nanoseconds as measured by the clock (a 128-bit count). */
  datatype CallEnv = CallEnv(uuid: Uuid, now: Timestamp, elapsedNs: nat)

  const U64Modulus: nat := 0x1_0000_0000_0000_0000

  /** `as_nanos() as u64`: the cast keeps the low 64 bits. */
  function ProcessingTimeNs(elapsedNs: nat): (t: nat)
    ensures t < U64Modulus
    ensures elapsedNs < U64Modulus ==> t == elapsedNs
    ensures (elapsedNs - t) % U64Modulus == 0
  {
    elapsedNs % U64Modulus
  }

  /** `r` is what govern returns for `input` under `cfg`. Without PII the
      action is Allow and the input passes unchanged, whatever the default
      action; with PII the action is the default action and only Redact
      alters the text. The receipt hashes the input and the output actually
      returned, and records the policy version in force. */
  ghost predicate IsGovernResult(cfg: TorkConfig, ps: seq<Pattern>, sha: string -> Digest,
                                 env: CallEnv, input: string, r: GovernanceResult): (b: bool)
    ensures b ==> (r.action != Allow ==> r.pii.hasPii && r.pii.count > 0)
    ensures b ==> (r.action == Allow ==> r.output == input)
    ensures b ==> r.receipt.action == r.action && |r.receipt.receiptId| == 37
    ensures b ==> |r.receipt.inputHash| == 71 && |r.receipt.outputHash| == 71
  {
    && IsDetection(ps, input, r.pii)
    && (if r.pii.hasPii then
          r.action == cfg.defaultAction
          && r.output == (if r.action == Redact then r.pii.redactedText else input)
        else
          r.action == Allow && r.output == input)
    && r.receipt == GovernanceReceipt(
         GenerateReceiptId(env.uuid), env.now, HashText(sha, input), HashText(sha, r.output),
         r.action, cfg.policyVersion, ProcessingTimeNs(env.elapsedNs))
  }

  /** `after` is `before` advanced by one call: one more call, one more PII
      detection exactly when PII was found, the call's time added, and the
      counter of the chosen action (and no other) one higher. */
  ghost predicate OneCallLater(before: TorkStats, after: TorkStats, action: GovernanceAction,
                               hasPii: bool, timeNs: nat): (b: bool)
    ensures b ==>
      var x, y := before.actionCounts, after.actionCounts;
      y.allow + y.deny + y.redact + y.escalate == x.allow + x.deny + x.redact + x.escalate + 1
    ensures b ==> after.totalCalls - after.totalPiiDetected >= before.totalCalls - before.totalPiiDetected
  {
    var b :=
      && after.totalCalls == before.totalCalls + 1
      && after.totalPiiDetected == before.totalPiiDetected + (if hasPii then 1 else 0)
      && after.totalProcessingTimeNs == before.totalProcessingTimeNs + timeNs
      && forall a :: CountFor(after.actionCounts, a) == CountFor(before.actionCounts, a) + (if a == action then 1 else 0);
    assert b ==> CountFor(after.actionCounts, Allow) == CountFor(before.actionCounts, Allow) + (if action == Allow then 1 else 0);
    assert b ==> CountFor(after.actionCounts, Deny) == CountFor(before.actionCounts, Deny) + (if action == Deny then 1 else 0);
    assert b ==> CountFor(after.actionCounts, Redact) == CountFor(before.actionCounts, Redact) + (if action == Redact then 1 else 0);
    assert b ==> CountFor(after.actionCounts, Escalate) == CountFor(before.actionCounts, Escalate) + (if action == Escalate then 1 else 0);
    b
  }

  /** The counters agree with each other: every call is counted under
      exactly one action, PII is detected in at most every call, and only a
      call that found PII can end in anything but Allow. */
  predicate StatsConsistent(s: TorkStats)
  {
    var c := s.actionCounts;
    && c.allow + c.deny + c.redact + c.escalate == s.totalCalls
    && s.totalPiiDetected <= s.totalCalls
    && c.deny + c.redact + c.escalate <= s.totalPiiDetected
  }

  /** Zeroed statistics, those of a new engine and of one just reset, are
      consistent. */
  lemma ZeroStatsConsistent()
    ensures StatsConsistent(ZeroStats)
  {
  }

  /** Every call of govern keeps the counters consistent. */
  lemma OneCallKeepsConsistency(before: TorkStats, after: TorkStats, action: GovernanceAction,
                                hasPii: bool, timeNs: nat)
    requires StatsConsistent(before)
    requires OneCallLater(before, after, action, hasPii, timeNs)
    requires !hasPii ==> action == Allow
    ensures StatsConsistent(after)
  {
    var b, c := before.actionCounts, after.actionCounts;
    assert CountFor(c, Allow) == CountFor(b, Allow) + (if action == Allow then 1 else 0);
    assert CountFor(c, Deny) == CountFor(b, Deny) + (if action == Deny then 1 else 0);
    assert CountFor(c, Redact) == CountFor(b, Redact) + (if action == Redact then 1 else 0);
    assert CountFor(c, Escalate) == CountFor(b, Escalate) + (if action == Escalate then 1 else 0);
  }

  /** A text in which no pattern occurs is allowed through unchanged, with
      no PII reported, whatever the configured default action. */
  lemma CleanInputAllowed(cfg: TorkConfig, ps: seq<Pattern>, sha: string -> Digest,
                          env: CallEnv, input: string, r: GovernanceResult)
    requires IsGovernResult(cfg, ps, sha, env, input, r)
    requires forall k :: 0 <= k < |ps| ==> Find(ps[k], input) == []
    ensures !r.pii.hasPii && r.pii.count == 0 && forall k :: k !in r.pii.types
    ensures r.action == Allow && r.output == input && r.pii.redactedText == input
    ensures r.receipt.inputHash == r.receipt.outputHash
  {
    NoMatchIff(ps, input);
    assert KindsOf(r.pii.matches) == {};
  }

  /** The output differs from the input only under Redact, and then it is the
      redacted text; the two hashes differ only if the texts' digests do. */
  lemma OutputChangesOnlyByRedaction(cfg: TorkConfig, ps: seq<Pattern>, sha: string -> Digest,
                                     env: CallEnv, input: string, r: GovernanceResult)
    requires IsGovernResult(cfg, ps, sha, env, input, r)
    ensures r.output != input ==> r.action == Redact && r.pii.hasPii && r.output == r.pii.redactedText
    ensures r.receipt.inputHash == r.receipt.outputHash <==> sha(input) == sha(r.output)
  {
    HashTextFaithful(sha, input, r.output);
  }

  /** The engine. `patterns` is fixed at construction; `config` and `stats`
      change. */
  class Tork {
    var config: TorkConfig
    var stats: TorkStats
    const patterns: seq<Pattern>

    ghost predicate Valid()
      reads this
    {
      StatsConsistent(stats)
    }

    /** The registry is get_pii_patterns over `lib`. */
    ghost predicate BuiltFrom(lib: RegexLibrary)
    {
      patterns == PiiPatterns(lib)
    }

    /** Tork::new: default configuration, zeroed statistics. */
    constructor New(lib: RegexLibrary)
      ensures config == DefaultConfig && stats == ZeroStats && BuiltFrom(lib)
    {
      config := DefaultConfig;
      stats := ZeroStats;
      patterns := PiiPatterns(lib);
    }

    /** Tork::with_config: the given configuration, zeroed statistics. */
    constructor WithConfig(cfg: TorkConfig, lib: RegexLibrary)
      ensures config == cfg && stats == ZeroStats && BuiltFrom(lib)
    {
      config := cfg;
      stats := ZeroStats;
      patterns := PiiPatterns(lib);
    }

    /** detect_pii_internal: the detector over the engine's own registry. */
    method DetectPiiInternal(text: string) returns (d: DetectionResult)
      ensures IsDetection(patterns, text, d)
    {
      d := DetectWith(patterns, text);
    }

    /** govern: detect, decide, build the receipt, count the call. */
    method Govern(input: string, sha: string -> Digest, env: CallEnv) returns (r: GovernanceResult)
      requires Valid()
      modifies this
      ensures Valid()
      ensures config == old(config)
      ensures IsGovernResult(config, patterns, sha, env, input, r)
      ensures OneCallLater(old(stats), stats, r.action, r.pii.hasPii, r.receipt.processingTimeNs)
    {
      var pii := DetectPiiInternal(input);
      var action: GovernanceAction;
      var output: string;
      if pii.hasPii {
        action := config.defaultAction;
        output := match action
          case Redact => pii.redactedText
          case _ => input;
      } else {
        action, output := Allow, input;
      }
      var timeNs := ProcessingTimeNs(env.elapsedNs);
      var receipt := GovernanceReceipt(
        GenerateReceiptId(env.uuid), env.now, HashText(sha, input), HashText(sha, output),
        action, config.policyVersion, timeNs);
      CountCall(action, pii.hasPii, timeNs);
      r := GovernanceResult(action, output, pii, receipt);
    }

    /** The statistics update at the end of govern: one more call, one more
        detection when PII was found, the call's time, and the counter of the
        chosen action. */
    method CountCall(action: GovernanceAction, hasPii: bool, timeNs: nat)
      requires Valid() && (!hasPii ==> action == Allow)
      modifies this
      ensures Valid()
      ensures config == old(config)
      ensures OneCallLater(old(stats), stats, action, hasPii, timeNs)
    {
      ghost var before := stats;
      stats := stats.(totalCalls := stats.totalCalls + 1);
      if hasPii {
        stats := stats.(totalPiiDetected := stats.totalPiiDetected + 1);
      }
      stats := stats.(totalProcessingTimeNs := stats.totalProcessingTimeNs + timeNs);
      var counts := stats.actionCounts;
      match action {
        case Allow => stats := stats.(actionCounts := counts.(allow := counts.allow + 1));
        case Deny => stats := stats.(actionCounts := counts.(deny := counts.deny + 1));
        case Redact => stats := stats.(actionCounts := counts.(redact := counts.redact + 1));
        case Escalate => stats := stats.(actionCounts := counts.(escalate := counts.escalate + 1));
      }
      OneCallKeepsConsistency(before, stats, action, hasPii, timeNs);
    }

    /** reset_stats: every counter back to zero; the configuration stays. */
    method ResetStats()
      requires Valid()
      modifies this
      ensures Valid()
      ensures stats == ZeroStats && config == old(config)
    {
      stats := ZeroStats;
    }

    /** set_config: the new configuration applies to later calls only; the
      statistics stay. */
    method SetConfig(cfg: TorkConfig)
      requires Valid()
      modifies this
      ensures Valid()
      ensures config == cfg && stats == old(stats)
    {
      config := cfg;
    }
  }
}
