/** Properties of the reconciliation pass. */
module ReconcileLemmas {
  import opened Wrappers
  import opened Net
  import opened Ec2
  import opened Rules
  import opened Reconciliation

  // ---------------------------------------------------------------------------
  // Aborting ends the pass: nothing after the abort point is examined.
  // ---------------------------------------------------------------------------

  /** Once the inner loop has aborted on a prefix, the loop over all permissions ends in that state. */
  lemma {:induction false} PermissionsAbortIsFinal(t: Pass, gid: string, perms: seq<IpPermission>, k: nat, ctx: Ctx)
    requires t.outcome.Ok? && WellFormedPermissions(perms) && k <= |perms|
    requires ScanPermissions(t, gid, perms[..k], ctx).outcome.Abort?
    ensures ScanPermissions(t, gid, perms, ctx) == ScanPermissions(t, gid, perms[..k], ctx)
    decreases |perms| - k
  {
    if k < |perms| {
      assert perms[..k + 1][..k] == perms[..k];
      PermissionsAbortIsFinal(t, gid, perms, k + 1, ctx);
    } else {
      assert perms[..k] == perms;
    }
  }

  /** Once the outer loop has aborted on a prefix, the loop over all groups ends in that state. */
  lemma {:induction false} GroupsAbortIsFinal(t: Pass, groups: seq<SecurityGroup>, k: nat, ctx: Ctx)
    requires t.outcome.Ok? && WellFormedGroups(groups) && k <= |groups|
    requires ScanGroups(t, groups[..k], ctx).outcome.Abort?
    ensures ScanGroups(t, groups, ctx) == ScanGroups(t, groups[..k], ctx)
    decreases |groups| - k
  {
    if k < |groups| {
      assert groups[..k + 1][..k] == groups[..k];
      GroupsAbortIsFinal(t, groups, k + 1, ctx);
    } else {
      assert groups[..k] == groups;
    }
  }

  // ---------------------------------------------------------------------------
  // One permission.
  // ---------------------------------------------------------------------------

  /**
   * Examining a permission only ever appends replacements of that very permission,
   * and only when one of its tagged ranges is stale; afterwards the counter is 1
   * exactly when the permission carries the tag.
   */
  lemma ExaminePermissionEffect(t: Pass, gid: string, p: IpPermission, ctx: Ctx)
    requires t.outcome.Ok? && WellFormedPermission(p)
    ensures var r := ExaminePermission(t, gid, p, ctx);
            r.ops == t.ops ||
            (HasStaleSlot(p, ctx) &&
             (r.ops == t.ops + Replace(gid, p, ctx) ||
              r.ops == t.ops + Replace(gid, p, ctx) + Replace(gid, p, ctx)))
    ensures ExaminePermission(t, gid, p, ctx).tagexists == if CarriesTag(p, ctx.tag) then 1 else t.tagexists
  {
  }

  /** A permission whose ranges do not carry the tag is neither touched nor counted. */
  lemma UntaggedPermissionIsInert(t: Pass, gid: string, p: IpPermission, ctx: Ctx)
    requires t.outcome.Ok? && WellFormedPermission(p)
    requires p.ipv6Ranges.None? || p.ipv6Ranges.value[0].description != Some(ctx.tag)
    requires p.ipRanges.None? || p.ipRanges.value[0].description != Some(ctx.tag)
    ensures ExaminePermission(t, gid, p, ctx) == t
  {
  }

  /** A tagged range whose address equals the WAN address causes no call; the counter becomes 1. */
  lemma MatchingRangeCausesNoCall(t: Pass, gid: string, p: IpPermission, ctx: Ctx)
    requires t.outcome.Ok? && WellFormedPermission(p) && CarriesTag(p, ctx.tag)
    requires Tagged(p.ipv6Ranges, ctx.tag) ==> ctx.lib.parseCIDR(p.ipv6Ranges.value[0].cidr) == Some(ctx.wanip)
    requires Tagged(p.ipRanges, ctx.tag) ==> ctx.lib.parseCIDR(p.ipRanges.value[0].cidr) == Some(ctx.wanip)
    ensures ExaminePermission(t, gid, p, ctx) == Pass(t.ops, 1, Ok)
  {
  }

  /**
   * A tagged range whose address differs from the WAN address, with the other slot
   * untagged or matching: the whole permission is revoked (a matching range in the
   * other slot with it), then the rule for the WAN address is added to the same group.
   */
  lemma StaleRangeIsReplaced(t: Pass, gid: string, p: IpPermission, ctx: Ctx)
    requires t.outcome.Ok? && WellFormedPermission(p)
    requires (StaleSlot(p.ipv6Ranges, ctx) &&
              (!Tagged(p.ipRanges, ctx.tag) || ctx.lib.parseCIDR(p.ipRanges.value[0].cidr) == Some(ctx.wanip))) ||
             (StaleSlot(p.ipRanges, ctx) &&
              (!Tagged(p.ipv6Ranges, ctx.tag) || ctx.lib.parseCIDR(p.ipv6Ranges.value[0].cidr) == Some(ctx.wanip)))
    ensures ExaminePermission(t, gid, p, ctx)
         == Pass(t.ops + [Revoke(gid, p), Authorize(gid, NewRule(ctx.tag, ctx.wanip, ctx.lib))], 1, Ok)
  {
  }

  /**
   * A permission holding both an IPv6 and an IPv4 range is examined twice: when
   * both are tagged and stale it is revoked and re-added twice.
   */
  lemma BothRangesAreExamined(t: Pass, gid: string, p: IpPermission, ctx: Ctx)
    requires t.outcome.Ok? && WellFormedPermission(p)
    requires StaleSlot(p.ipv6Ranges, ctx) && StaleSlot(p.ipRanges, ctx)
    ensures ExaminePermission(t, gid, p, ctx)
         == Pass(t.ops + Replace(gid, p, ctx) + Replace(gid, p, ctx), 1, Ok)
  {
    var r := ExamineSlot(t, gid, p, p.ipv6Ranges, ctx);
    assert r == Pass(t.ops + Replace(gid, p, ctx), 1, Ok);
  }

  /**
   * A tagged range that does not parse ends the pass with the counter at 1. When it
   * is the IPv4 range, the IPv6 range of the same permission has already had its
   * effect: a stale IPv6 range has been replaced. Nothing else is appended.
   */
  lemma UnparsableRangeAborts(t: Pass, gid: string, p: IpPermission, ctx: Ctx)
    requires t.outcome.Ok? && WellFormedPermission(p)
    requires (Tagged(p.ipv6Ranges, ctx.tag) && ctx.lib.parseCIDR(p.ipv6Ranges.value[0].cidr).None?) ||
             (Tagged(p.ipRanges, ctx.tag) && ctx.lib.parseCIDR(p.ipRanges.value[0].cidr).None?)
    ensures ExaminePermission(t, gid, p, ctx)
         == Pass(if StaleSlot(p.ipv6Ranges, ctx) then t.ops + Replace(gid, p, ctx) else t.ops,
                 1, Abort(UnparsableCidr))
  {
  }

  /**
   * A tagged rule of the other address family can never equal the WAN address:
   * in a group holding a current IPv4 rule and an IPv6 rule under the same tag,
   * the IPv6 rule is revoked and a second IPv4 rule for the WAN address is added.
   */
  lemma OtherFamilyRuleIsReplaced(t: Pass, gid: string, p4: IpPermission, p6: IpPermission, ctx: Ctx)
    requires t.outcome.Ok? && ctx.wanip.family == V4
    requires p4.ipv6Ranges.None? && p4.ipRanges.Some? && |p4.ipRanges.value| > 0
    requires p4.ipRanges.value[0].description == Some(ctx.tag)
    requires ctx.lib.parseCIDR(p4.ipRanges.value[0].cidr) == Some(ctx.wanip)
    requires p6.ipRanges.None? && p6.ipv6Ranges.Some? && |p6.ipv6Ranges.value| > 0
    requires p6.ipv6Ranges.value[0].description == Some(ctx.tag)
    requires ctx.lib.parseCIDR(p6.ipv6Ranges.value[0].cidr).Some?
    requires ctx.lib.parseCIDR(p6.ipv6Ranges.value[0].cidr).value.family == V6
    ensures ScanGroup(t, SecurityGroup(gid, [p4, p6]), ctx)
         == Pass(t.ops + [Revoke(gid, p6), Authorize(gid, NewRule(ctx.tag, ctx.wanip, ctx.lib))], 1, Ok)
    ensures NewRule(ctx.tag, ctx.wanip, ctx.lib).ipRanges.Some?
  {
    var perms := [p4, p6];
    assert perms[..1] == [p4] && [p4][..0] == [];
    assert ScanPermissions(t, gid, [p4], ctx) == Pass(t.ops, 1, Ok);
  }

  // ---------------------------------------------------------------------------
  // Order: groups are processed one after another, in input order.
  // ---------------------------------------------------------------------------

  /** Scanning `g1 + g2` is scanning `g1`, then scanning `g2` from where `g1` left off. */
  lemma {:induction false} ScanGroupsAppend(t: Pass, g1: seq<SecurityGroup>, g2: seq<SecurityGroup>, ctx: Ctx)
    requires t.outcome.Ok? && WellFormedGroups(g1) && WellFormedGroups(g2)
    requires ScanGroups(t, g1, ctx).outcome.Ok?
    ensures WellFormedGroups(g1 + g2)
    ensures ScanGroups(t, g1 + g2, ctx) == ScanGroups(ScanGroups(t, g1, ctx), g2, ctx)
    decreases |g2|
  {
    if g2 == [] {
      assert g1 + g2 == g1;
    } else {
      var n := |g2| - 1;
      assert (g1 + g2)[..|g1 + g2| - 1] == g1 + g2[..n];
      assert (g1 + g2)[|g1 + g2| - 1] == g2[n];
      ScanGroupsAppend(t, g1, g2[..n], ctx);
    }
  }

  // ---------------------------------------------------------------------------
  // Non-interference: every call has a reason in the listing.
  // ---------------------------------------------------------------------------

  /**
   * A call made on group `gid` whose permissions are `perms`: a revoke of one of
   * those permissions that has a tagged, stale range, or an add of the WAN rule.
   */
  predicate Justified(op: Op, gid: string, perms: seq<IpPermission>, ctx: Ctx)
    requires WellFormedPermissions(perms)
  {
    op.groupId == gid &&
    match op
    case Revoke(_, p) => p in perms && HasStaleSlot(p, ctx)
    case Authorize(_, q) => q == NewRule(ctx.tag, ctx.wanip, ctx.lib)
  }

  /** Every call issued while scanning the permissions of `gid` is justified by one of them. */
  lemma {:induction false} PermissionCallsAreJustified(t: Pass, gid: string, perms: seq<IpPermission>, ctx: Ctx)
    requires t.outcome.Ok? && WellFormedPermissions(perms)
    ensures forall i :: |t.ops| <= i < |ScanPermissions(t, gid, perms, ctx).ops| ==>
              Justified(ScanPermissions(t, gid, perms, ctx).ops[i], gid, perms, ctx)
    decreases |perms|
  {
    if perms != [] {
      var n := |perms| - 1;
      var prev := ScanPermissions(t, gid, perms[..n], ctx);
      var r := ScanPermissions(t, gid, perms, ctx);
      PermissionCallsAreJustified(t, gid, perms[..n], ctx);
      forall i | |t.ops| <= i < |r.ops|
        ensures Justified(r.ops[i], gid, perms, ctx)
      {
        if i < |prev.ops| {
          assert Justified(prev.ops[i], gid, perms[..n], ctx);
          assert r.ops[i] == prev.ops[i];
        } else {
          var p := perms[n];
          assert p in perms;
          ExaminePermissionEffect(prev, gid, p, ctx);
          assert r.ops[i] in Replace(gid, p, ctx);
        }
      }
    }
  }

  /**
   * Every call issued by a pass names a listed group and is justified by that
   * group: no untagged, matching or unlisted permission is ever revoked.
   */
  lemma {:induction false} GroupCallsAreJustified(t: Pass, groups: seq<SecurityGroup>, ctx: Ctx)
    requires t.outcome.Ok? && WellFormedGroups(groups)
    ensures forall i :: |t.ops| <= i < |ScanGroups(t, groups, ctx).ops| ==>
              exists g :: g in groups && Justified(ScanGroups(t, groups, ctx).ops[i], g.groupId, g.ipPermissions, ctx)
    decreases |groups|
  {
    if groups != [] {
      var n := |groups| - 1;
      var prev := ScanGroups(t, groups[..n], ctx);
      var r := ScanGroups(t, groups, ctx);
      GroupCallsAreJustified(t, groups[..n], ctx);
      var g := groups[n];
      assert g in groups;
      forall i | |t.ops| <= i < |r.ops|
        ensures exists h :: h in groups && Justified(r.ops[i], h.groupId, h.ipPermissions, ctx)
      {
        if i < |prev.ops| {
          var h :| h in groups[..n] && Justified(prev.ops[i], h.groupId, h.ipPermissions, ctx);
          assert h in groups && r.ops[i] == prev.ops[i];
        } else {
          var scanned := ScanPermissions(prev, g.groupId, g.ipPermissions, ctx);
          PermissionCallsAreJustified(prev, g.groupId, g.ipPermissions, ctx);
          if i < |scanned.ops| {
            assert r.ops[i] == scanned.ops[i];
          }
          assert Justified(r.ops[i], g.groupId, g.ipPermissions, ctx);
        }
      }
    } else {
      assert ScanGroups(t, groups, ctx).ops == t.ops;
    }
  }

  // ---------------------------------------------------------------------------
  // The global counter: create only while no tagged range has been seen.
  // ---------------------------------------------------------------------------

  /** A run of calls made only of (revoke, add) pairs on the same group, i.e. replacements. */
  predicate Replacements(ops: seq<Op>)
    decreases |ops|
  {
    ops == [] ||
    (|ops| >= 2 && ops[0].Revoke? && ops[1].Authorize? && ops[0].groupId == ops[1].groupId &&
     Replacements(ops[2..]))
  }

  lemma {:induction false} ReplacementsAppend(a: seq<Op>, b: seq<Op>)
    requires Replacements(a) && Replacements(b)
    ensures Replacements(a + b)
    decreases |a|
  {
    if a != [] {
      assert (a + b)[0] == a[0] && (a + b)[1] == a[1];
      assert (a + b)[2..] == a[2..] + b;
      ReplacementsAppend(a[2..], b);
    } else {
      assert a + b == b;
    }
  }

  /** Examining one permission issues zero, one or two replacements. */
  lemma PermissionIssuesReplacements(t: Pass, gid: string, p: IpPermission, ctx: Ctx)
    requires t.outcome.Ok? && WellFormedPermission(p)
    ensures var r := ExaminePermission(t, gid, p, ctx); t.ops <= r.ops && Replacements(r.ops[|t.ops|..])
  {
    var r := ExaminePermission(t, gid, p, ctx);
    ExaminePermissionEffect(t, gid, p, ctx);
    var one := Replace(gid, p, ctx);
    assert Replacements(one) by { assert one[2..] == []; }
    ReplacementsAppend(one, one);
    assert r.ops[|t.ops|..] == [] || r.ops[|t.ops|..] == one || r.ops[|t.ops|..] == one + one;
  }

  /** Scanning permissions issues replacements only: never a lone add. */
  lemma {:induction false} PermissionsIssueReplacements(t: Pass, gid: string, perms: seq<IpPermission>, ctx: Ctx)
    requires t.outcome.Ok? && WellFormedPermissions(perms)
    ensures var r := ScanPermissions(t, gid, perms, ctx); Replacements(r.ops[|t.ops|..])
    decreases |perms|
  {
    var r := ScanPermissions(t, gid, perms, ctx);
    if perms == [] {
      assert r.ops[|t.ops|..] == [];
    } else {
      var n := |perms| - 1;
      var prev := ScanPermissions(t, gid, perms[..n], ctx);
      PermissionsIssueReplacements(t, gid, perms[..n], ctx);
      if prev.outcome.Ok? {
        assert perms[n] in perms;
        assert r == ExaminePermission(prev, gid, perms[n], ctx);
        PermissionIssuesReplacements(prev, gid, perms[n], ctx);
        var before, added := prev.ops[|t.ops|..], r.ops[|prev.ops|..];
        ReplacementsAppend(before, added);
        assert r.ops[|t.ops|..] == before + added;
      }
    }
  }

  /** Once the counter is non-zero, scanning groups issues replacements only: no group gets a create. */
  lemma {:induction false} GroupsIssueOnlyReplacements(t: Pass, groups: seq<SecurityGroup>, ctx: Ctx)
    requires t.outcome.Ok? && WellFormedGroups(groups) && t.tagexists != 0
    ensures var r := ScanGroups(t, groups, ctx); Replacements(r.ops[|t.ops|..]) && r.tagexists != 0
    decreases |groups|
  {
    if groups != [] {
      var n := |groups| - 1;
      var prev := ScanGroups(t, groups[..n], ctx);
      GroupsIssueOnlyReplacements(t, groups[..n], ctx);
      if prev.outcome.Ok? {
        var g := groups[n];
        assert g in groups;
        var r := ScanGroups(t, groups, ctx);
        PermissionsIssueReplacements(prev, g.groupId, g.ipPermissions, ctx);
        ReplacementsAppend(prev.ops[|t.ops|..], r.ops[|prev.ops|..]);
        assert r.ops[|t.ops|..] == prev.ops[|t.ops|..] + r.ops[|prev.ops|..];
      }
    }
  }

  /**
   * `tagexists` is never reset: once any earlier group or earlier run has seen a
   * tagged range, a later run only ever replaces stale rules and never creates one.
   */
  lemma NoCreateOnceSeen(t: Pass, listing: Result<seq<SecurityGroup>, string>, tag: string,
                         wanip: Option<IP>, lib: NetLib)
    requires t.outcome.Ok? && t.tagexists != 0
    requires listing.Success? ==> WellFormedGroups(listing.value)
    ensures var r := Reconcile(t, listing, tag, wanip, lib);
            t.ops <= r.ops && Replacements(r.ops[|t.ops|..]) && r.tagexists != 0
  {
    if wanip.Some? && listing.Success? {
      GroupsIssueOnlyReplacements(t, listing.value, Ctx(tag, wanip.value, lib));
    } else {
      assert Reconcile(t, listing, tag, wanip, lib).ops[|t.ops|..] == [];
    }
  }

  /**
   * Starting from a zero counter, a completed scan of permissions leaves it at zero
   * exactly when none of them carries the tag.
   */
  lemma {:induction false} CounterStaysZeroIffUntagged(t: Pass, gid: string, perms: seq<IpPermission>, ctx: Ctx)
    requires t.outcome.Ok? && t.tagexists == 0 && WellFormedPermissions(perms)
    requires ScanPermissions(t, gid, perms, ctx).outcome.Ok?
    ensures ScanPermissions(t, gid, perms, ctx).tagexists == 0
        <==> forall q :: q in perms ==> !CarriesTag(q, ctx.tag)
    decreases |perms|
  {
    if perms != [] {
      var n := |perms| - 1;
      var prev := ScanPermissions(t, gid, perms[..n], ctx);
      assert perms == perms[..n] + [perms[n]];
      assert perms[n] in perms;
      CounterStaysZeroIffUntagged(t, gid, perms[..n], ctx);
      ExaminePermissionEffect(prev, gid, perms[n], ctx);
    }
  }

  /**
   * After a group's permissions are scanned from a zero counter, the create call is
   * appended exactly when the tag is non-empty and no permission of the group carries it.
   */
  lemma CreateIffUntagged(t: Pass, g: SecurityGroup, ctx: Ctx)
    requires t.outcome.Ok? && t.tagexists == 0 && WellFormedPermissions(g.ipPermissions)
    requires ScanPermissions(t, g.groupId, g.ipPermissions, ctx).outcome.Ok?
    ensures var scanned := ScanPermissions(t, g.groupId, g.ipPermissions, ctx);
            var untagged := forall q :: q in g.ipPermissions ==> !CarriesTag(q, ctx.tag);
            (ScanGroup(t, g, ctx).ops == scanned.ops + [Create(g.groupId, ctx)] <==> ctx.tag != "" && untagged) &&
            (ScanGroup(t, g, ctx).ops == scanned.ops <==> !(ctx.tag != "" && untagged))
  {
    CounterStaysZeroIffUntagged(t, g.groupId, g.ipPermissions, ctx);
    var scanned := ScanPermissions(t, g.groupId, g.ipPermissions, ctx);
    assert scanned.ops != scanned.ops + [Create(g.groupId, ctx)] by {
      assert |scanned.ops + [Create(g.groupId, ctx)]| == |scanned.ops| + 1;
    }
  }

  /** A scan of permissions none of which carries the tag changes nothing. */
  lemma {:induction false} UntaggedPermissionsAreInert(t: Pass, gid: string, perms: seq<IpPermission>, ctx: Ctx)
    requires t.outcome.Ok? && WellFormedPermissions(perms)
    requires forall q :: q in perms ==> !CarriesTag(q, ctx.tag)
    ensures ScanPermissions(t, gid, perms, ctx) == t
    decreases |perms|
  {
    if perms != [] {
      var n := |perms| - 1;
      assert perms[n] in perms;
      UntaggedPermissionsAreInert(t, gid, perms[..n], ctx);
    }
  }

  /** The create calls of a pass over groups none of which holds a tagged rule, in group order. */
  function Creates(groups: seq<SecurityGroup>, ctx: Ctx): (ops: seq<Op>)
    ensures |ops| == |groups|
    ensures forall i :: 0 <= i < |groups| ==> ops[i] == Create(groups[i].groupId, ctx)
  {
    seq(|groups|, i requires 0 <= i < |groups| => Create(groups[i].groupId, ctx))
  }

  /** With a zero counter and a non-empty tag, every listed group without a tagged rule gets one create, in order. */
  lemma {:induction false} CreateInEveryUntaggedGroup(t: Pass, groups: seq<SecurityGroup>, ctx: Ctx)
    requires t.outcome.Ok? && t.tagexists == 0 && ctx.tag != "" && WellFormedGroups(groups)
    requires forall g, q :: g in groups && q in g.ipPermissions ==> !CarriesTag(q, ctx.tag)
    ensures ScanGroups(t, groups, ctx) == Pass(t.ops + Creates(groups, ctx), 0, Ok)
    decreases |groups|
  {
    if groups != [] {
      var n := |groups| - 1;
      var g := groups[n];
      assert g in groups;
      CreateInEveryUntaggedGroup(t, groups[..n], ctx);
      var prev := Pass(t.ops + Creates(groups[..n], ctx), 0, Ok);
      UntaggedPermissionsAreInert(prev, g.groupId, g.ipPermissions, ctx);
      assert Creates(groups, ctx) == Creates(groups[..n], ctx) + [Create(g.groupId, ctx)];
    }
  }

  // ---------------------------------------------------------------------------
  // Idempotence: once the rule for the WAN address exists, a pass is quiet.
  // ---------------------------------------------------------------------------

  /** The printed host CIDR of the WAN address parses back to the WAN address. */
  predicate CidrRoundTrips(ctx: Ctx)
  {
    ctx.lib.parseCIDR(HostCidr(ctx.wanip, ctx.lib)) == Some(ctx.wanip)
  }

  /** The rule `addNewSecurityGroupRule` creates is recognised as tagged and matching by the next pass. */
  lemma CreatedRuleIsMatched(t: Pass, gid: string, ctx: Ctx)
    requires t.outcome.Ok? && CidrRoundTrips(ctx)
    ensures CarriesTag(NewRule(ctx.tag, ctx.wanip, ctx.lib), ctx.tag)
    ensures ExaminePermission(t, gid, NewRule(ctx.tag, ctx.wanip, ctx.lib), ctx) == Pass(t.ops, 1, Ok)
  {
  }

  /** Permissions whose only tagged member is the created rule cause no call. */
  lemma {:induction false} QuietPermissions(t: Pass, gid: string, perms: seq<IpPermission>, ctx: Ctx)
    requires t.outcome.Ok? && CidrRoundTrips(ctx) && WellFormedPermissions(perms)
    requires forall q :: q in perms && CarriesTag(q, ctx.tag) ==> q == NewRule(ctx.tag, ctx.wanip, ctx.lib)
    ensures var r := ScanPermissions(t, gid, perms, ctx);
            r.ops == t.ops && r.outcome.Ok? &&
            (NewRule(ctx.tag, ctx.wanip, ctx.lib) in perms ==> r.tagexists == 1)
    decreases |perms|
  {
    if perms != [] {
      var n := |perms| - 1;
      var rule := NewRule(ctx.tag, ctx.wanip, ctx.lib);
      assert perms[n] in perms;
      assert perms == perms[..n] + [perms[n]];
      QuietPermissions(t, gid, perms[..n], ctx);
      var prev := ScanPermissions(t, gid, perms[..n], ctx);
      if perms[n] == rule {
        CreatedRuleIsMatched(prev, gid, ctx);
      } else {
        ExaminePermissionEffect(prev, gid, perms[n], ctx);
      }
    }
  }

  /**
   * A second pass over groups that each hold the created rule, and no other tagged
   * rule, issues no call at all.
   */
  lemma {:induction false} SecondPassIsQuiet(t: Pass, groups: seq<SecurityGroup>, ctx: Ctx)
    requires t.outcome.Ok? && CidrRoundTrips(ctx) && WellFormedGroups(groups)
    requires forall g :: g in groups ==> NewRule(ctx.tag, ctx.wanip, ctx.lib) in g.ipPermissions
    requires forall g, q :: g in groups && q in g.ipPermissions && CarriesTag(q, ctx.tag) ==>
               q == NewRule(ctx.tag, ctx.wanip, ctx.lib)
    ensures var r := ScanGroups(t, groups, ctx); r.ops == t.ops && r.outcome.Ok?
    decreases |groups|
  {
    if groups != [] {
      var n := |groups| - 1;
      var g := groups[n];
      assert g in groups;
      SecondPassIsQuiet(t, groups[..n], ctx);
      QuietPermissions(ScanGroups(t, groups[..n], ctx), g.groupId, g.ipPermissions, ctx);
    }
  }

  // ---------------------------------------------------------------------------
  // Early failures.
  // ---------------------------------------------------------------------------

  /** Without a WAN address, or without a group listing, the run aborts before any call. */
  lemma EarlyFailureIssuesNoCall(t: Pass, listing: Result<seq<SecurityGroup>, string>, tag: string,
                                 wanip: Option<IP>, lib: NetLib)
    requires t.outcome.Ok?
    requires listing.Success? ==> WellFormedGroups(listing.value)
    requires wanip.None? || listing.Failure?
    ensures var r := Reconcile(t, listing, tag, wanip, lib);
            r.ops == t.ops && r.tagexists == t.tagexists &&
            r.outcome == (if wanip.None? then Abort(AddressUnavailable) else Abort(ListingFailed(listing.error)))
  {
  }
}
