/**
 * The updater process: the package-level `tagexists` counter, the calls issued to
 * EC2 so far, and `run`, which walks the listed groups and their permissions in
 * order and revokes, authorizes or aborts.
 */
module Updater {
  import opened Wrappers
  import opened Net
  import opened Ec2
  import opened Rules
  import opened Reconciliation
  import ReconcileLemmas

  class Reconciler {
    /** The global counter of main.go:20: set to 1 once a tagged range is seen, never reset. */
    var tagexists: int
    /** Every call made to the EC2 gateway, in order. Gateway errors are discarded, so no result is kept. */
    var trace: seq<Op>
    /** The process has ended through `exitErrorf` (`os.Exit(1)`); no further `run` happens. */
    var exited: bool
    const lib: NetLib

    ghost predicate Valid()
      reads this
    {
      tagexists == 0 || tagexists == 1
    }

    /** Process start: Go's zero value for the counter and no call issued yet. */
    constructor (lib: NetLib)
      ensures Valid() && tagexists == 0 && trace == [] && !exited && this.lib == lib
    {
      tagexists := 0;
      trace := [];
      exited := false;
      this.lib := lib;
    }

    /** `revokeOldSecurityGroupRule`: removes the whole permission from the group. */
    method RevokeOldRule(gid: string, oldRange: IpPermission)
      modifies this`trace
      ensures trace == old(trace) + [Revoke(gid, oldRange)]
    {
      trace := trace + [Revoke(gid, oldRange)];
    }

    /** `addNewSecurityGroupRule`: adds the rule for the WAN address under the tag. */
    method AddNewRule(gid: string, tag: string, wanip: IP)
      modifies this`trace
      ensures trace == old(trace) + [Authorize(gid, NewRule(tag, wanip, lib))]
    {
      trace := trace + [Authorize(gid, NewRule(tag, wanip, lib))];
    }

    /** The body of one of the two `if ingress.Ip…Ranges != nil` blocks; false when the CIDR does not parse. */
    method CheckRange(gid: string, ingress: IpPermission, slot: Option<seq<IpRange>>, tag: string, wanip: IP)
      returns (parsed: bool)
      requires WellFormedSlot(slot)
      modifies this`trace, this`tagexists
      ensures var r := ExamineSlot(Pass(old(trace), old(tagexists), Ok), gid, ingress, slot, Ctx(tag, wanip, lib));
              trace == r.ops && tagexists == r.tagexists && parsed == r.outcome.Ok?
    {
      if slot.Some? {
        var first := slot.value[0];
        if first.description.Some? && first.description.value == tag {
          tagexists := 1;
          var awsip := lib.parseCIDR(first.cidr);
          if awsip.None? {
            return false;
          }
          if awsip.value != wanip {
            RevokeOldRule(gid, ingress);
            AddNewRule(gid, tag, wanip);
          }
        }
      }
      return true;
    }

    /**
     * The inner loop of `run` over the permissions of one group, in order;
     * false when it stopped at a tagged range whose CIDR does not parse.
     */
    method CheckPermissions(gid: string, perms: seq<IpPermission>, tag: string, wanip: IP)
      returns (parsed: bool)
      requires WellFormedPermissions(perms)
      modifies this`trace, this`tagexists
      ensures var r := ScanPermissions(Pass(old(trace), old(tagexists), Ok), gid, perms, Ctx(tag, wanip, lib));
              trace == r.ops && tagexists == r.tagexists && parsed == r.outcome.Ok?
    {
      ghost var start := Pass(trace, tagexists, Ok);
      ghost var ctx := Ctx(tag, wanip, lib);
      var j := 0;
      while j < |perms|
        invariant 0 <= j <= |perms|
        invariant ScanPermissions(start, gid, perms[..j], ctx) == Pass(trace, tagexists, Ok)
      {
        var ingress := perms[j];
        assert perms[..j + 1][..j] == perms[..j];
        assert ingress in perms;
        parsed := CheckRange(gid, ingress, ingress.ipv6Ranges, tag, wanip);
        if parsed {
          parsed := CheckRange(gid, ingress, ingress.ipRanges, tag, wanip);
        }
        if !parsed {
          ReconcileLemmas.PermissionsAbortIsFinal(start, gid, perms, j + 1, ctx);
          return false;
        }
        j := j + 1;
      }
      assert perms[..j] == perms;
      return true;
    }

    /**
     * `run`: the whole trace and counter afterwards are those of the `Reconcile`
     * specification started from the state before the call. An abort ends the
     * process, so a `Reconciler` that has exited is never run again.
     */
    method Run(listing: Result<seq<SecurityGroup>, string>, tag: string, wanip: Option<IP>)
      returns (outcome: Outcome)
      requires Valid() && !exited
      requires listing.Success? ==> WellFormedGroups(listing.value)
      modifies this`trace, this`tagexists, this`exited
      ensures Valid()
      ensures exited == outcome.Abort?
      ensures var r := Reconcile(Pass(old(trace), old(tagexists), Ok), listing, tag, wanip, lib);
              trace == r.ops && tagexists == r.tagexists && outcome == r.outcome
    {
      if wanip.None? {
        exited := true;
        return Abort(AddressUnavailable);
      }
      if listing.Failure? {
        exited := true;
        return Abort(ListingFailed(listing.error));
      }
      var groups := listing.value;
      ghost var start := Pass(trace, tagexists, Ok);
      ghost var ctx := Ctx(tag, wanip.value, lib);
      var i := 0;
      while i < |groups|
        invariant 0 <= i <= |groups|
        invariant ScanGroups(start, groups[..i], ctx) == Pass(trace, tagexists, Ok)
        invariant !exited
      {
        var group := groups[i];
        assert groups[..i + 1][..i] == groups[..i];
        assert group in groups;
        var parsed := CheckPermissions(group.groupId, group.ipPermissions, tag, wanip.value);
        if !parsed {
          ReconcileLemmas.GroupsAbortIsFinal(start, groups, i + 1, ctx);
          exited := true;
          return Abort(UnparsableCidr);
        }
        if tagexists == 0 && tag != "" {
          AddNewRule(group.groupId, tag, wanip.value);
        }
        i := i + 1;
      }
      assert groups[..i] == groups;
      return Ok;
    }
  }
}
