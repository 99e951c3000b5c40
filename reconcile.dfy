/**
 * The reconciliation pass of the security-group updater, as functions over a
 * `Pass`: the gateway calls issued so far, the value of the global `tagexists`
 * counter, and whether the process has aborted. Each function consumes one
 * piece of the listing in the order the Go loops visit it.
 */
module Reconciliation {
  import opened Wrappers
  import opened Net
  import opened Ec2
  import opened Rules

  /** Why `exitErrorf` ended the process. */
  datatype AbortReason =
    | AddressUnavailable
    | ListingFailed(code: string)
    | UnparsableCidr

  datatype Outcome = Ok | Abort(reason: AbortReason)

  /** The observable state of a pass: the trace of gateway calls, the counter, the outcome so far. */
  datatype Pass = Pass(ops: seq<Op>, tagexists: int, outcome: Outcome)

  /** The fixed inputs of one pass: the tag and the resolved WAN address. */
  datatype Ctx = Ctx(tag: string, wanip: IP, lib: NetLib)

  /** The first range of a present slot has a description equal to the tag. */
  predicate Tagged(slot: Option<seq<IpRange>>, tag: string)
    requires WellFormedSlot(slot)
  {
    slot.Some? && slot.value[0].description == Some(tag)
  }

  /** Either range slot of the permission is tagged; such a permission is examined. */
  predicate CarriesTag(p: IpPermission, tag: string)
    requires WellFormedPermission(p)
  {
    Tagged(p.ipv6Ranges, tag) || Tagged(p.ipRanges, tag)
  }

  /** A tagged slot whose CIDR parses to an address other than the WAN address. */
  predicate StaleSlot(slot: Option<seq<IpRange>>, ctx: Ctx)
    requires WellFormedSlot(slot)
  {
    Tagged(slot, ctx.tag) &&
    ctx.lib.parseCIDR(slot.value[0].cidr).Some? &&
    ctx.lib.parseCIDR(slot.value[0].cidr).value != ctx.wanip
  }

  predicate HasStaleSlot(p: IpPermission, ctx: Ctx)
    requires WellFormedPermission(p)
  {
    StaleSlot(p.ipv6Ranges, ctx) || StaleSlot(p.ipRanges, ctx)
  }

  /** The call made by `addNewSecurityGroupRule` on group `gid`. */
  function Create(gid: string, ctx: Ctx): Op
  {
    Authorize(gid, NewRule(ctx.tag, ctx.wanip, ctx.lib))
  }

  /** Replacing a stale permission: revoke it whole, then add the rule for the WAN address. */
  function Replace(gid: string, p: IpPermission, ctx: Ctx): seq<Op>
  {
    [Revoke(gid, p), Create(gid, ctx)]
  }

  /** Examining one range slot of permission `p` (main.go:122-139 and 141-158). */
  function ExamineSlot(t: Pass, gid: string, p: IpPermission, slot: Option<seq<IpRange>>, ctx: Ctx): (r: Pass)
    requires t.outcome.Ok? && WellFormedSlot(slot)
    ensures t.ops <= r.ops
    ensures r.tagexists == if Tagged(slot, ctx.tag) then 1 else t.tagexists
    ensures r.outcome.Abort? <==> Tagged(slot, ctx.tag) && ctx.lib.parseCIDR(slot.value[0].cidr).None?
    ensures r.outcome.Abort? ==> r.outcome == Abort(UnparsableCidr) && r.ops == t.ops
    ensures r.ops != t.ops <==> StaleSlot(slot, ctx)
  {
    if !Tagged(slot, ctx.tag) then t
    else match ctx.lib.parseCIDR(slot.value[0].cidr)
      case None => Pass(t.ops, 1, Abort(UnparsableCidr))
      case Some(awsip) =>
        if awsip == ctx.wanip then t.(tagexists := 1)
        else Pass(t.ops + Replace(gid, p, ctx), 1, Ok)
  }

  /** One iteration of the inner loop: the IPv6 slot first, then the IPv4 slot. */
  function ExaminePermission(t: Pass, gid: string, p: IpPermission, ctx: Ctx): (r: Pass)
    requires t.outcome.Ok? && WellFormedPermission(p)
    ensures t.ops <= r.ops
    ensures r.tagexists == if CarriesTag(p, ctx.tag) then 1 else t.tagexists
    ensures r.outcome == Ok || r.outcome == Abort(UnparsableCidr)
    ensures r.ops != t.ops ==> HasStaleSlot(p, ctx)
  {
    var r := ExamineSlot(t, gid, p, p.ipv6Ranges, ctx);
    if r.outcome.Abort? then r else ExamineSlot(r, gid, p, p.ipRanges, ctx)
  }

  /** The inner loop over the permissions of group `gid`, stopping at an abort. */
  function ScanPermissions(t: Pass, gid: string, perms: seq<IpPermission>, ctx: Ctx): (r: Pass)
    requires t.outcome.Ok? && WellFormedPermissions(perms)
    ensures t.ops <= r.ops
    ensures r.tagexists == t.tagexists || r.tagexists == 1
    ensures r.outcome == Ok || r.outcome == Abort(UnparsableCidr)
    decreases |perms|
  {
    if perms == [] then t
    else
      var prev := ScanPermissions(t, gid, perms[..|perms| - 1], ctx);
      if prev.outcome.Abort? then prev
      else ExaminePermission(prev, gid, perms[|perms| - 1], ctx)
  }

  /** One iteration of the outer loop: the permissions, then the create check of main.go:161-164. */
  function ScanGroup(t: Pass, g: SecurityGroup, ctx: Ctx): (r: Pass)
    requires t.outcome.Ok? && WellFormedPermissions(g.ipPermissions)
    ensures t.ops <= r.ops
    ensures r.tagexists == t.tagexists || r.tagexists == 1
    ensures r.outcome == Ok || r.outcome == Abort(UnparsableCidr)
    ensures var scanned := ScanPermissions(t, g.groupId, g.ipPermissions, ctx);
            r.ops == scanned.ops || (r.ops == scanned.ops + [Create(g.groupId, ctx)] && t.tagexists == 0 && ctx.tag != "")
  {
    var r := ScanPermissions(t, g.groupId, g.ipPermissions, ctx);
    if r.outcome.Ok? && r.tagexists == 0 && ctx.tag != "" then r.(ops := r.ops + [Create(g.groupId, ctx)])
    else r
  }

  /** The outer loop over the listed groups, stopping at an abort. */
  function ScanGroups(t: Pass, groups: seq<SecurityGroup>, ctx: Ctx): (r: Pass)
    requires t.outcome.Ok? && WellFormedGroups(groups)
    ensures t.ops <= r.ops
    ensures r.tagexists == t.tagexists || r.tagexists == 1
    ensures r.outcome == Ok || r.outcome == Abort(UnparsableCidr)
    decreases |groups|
  {
    if groups == [] then t
    else
      var prev := ScanGroups(t, groups[..|groups| - 1], ctx);
      if prev.outcome.Abort? then prev
      else ScanGroup(prev, groups[|groups| - 1], ctx)
  }

  /**
   * One call of `run`: the WAN address lookup, the group listing, then the scan.
   * `wanip` is None when the address consensus failed; `listing` carries the AWS
   * error code when `DescribeSecurityGroups` failed.
   */
  function Reconcile(t: Pass, listing: Result<seq<SecurityGroup>, string>, tag: string,
                     wanip: Option<IP>, lib: NetLib): (r: Pass)
    requires t.outcome.Ok?
    requires listing.Success? ==> WellFormedGroups(listing.value)
    ensures t.ops <= r.ops
    ensures r.tagexists == t.tagexists || r.tagexists == 1
    ensures wanip.None? ==> r.outcome == Abort(AddressUnavailable)
    ensures wanip.Some? && listing.Failure? ==> r.outcome == Abort(ListingFailed(listing.error))
    ensures (wanip.None? || listing.Failure?) ==> r.ops == t.ops && r.tagexists == t.tagexists
    ensures wanip.Some? && listing.Success? ==> r.outcome == Ok || r.outcome == Abort(UnparsableCidr)
  {
    if wanip.None? then t.(outcome := Abort(AddressUnavailable))
    else if listing.Failure? then t.(outcome := Abort(ListingFailed(listing.error)))
    else ScanGroups(t, listing.value, Ctx(tag, wanip.value, lib))
  }
}
