# aws-sg-updater: a verified model of the security-group reconciliation pass

`aws-sg-updater` keeps an EC2 security group's ingress allow-list pointed at the
operator's current public (WAN) address. Managed rules are found through their
description, which holds an operator-chosen tag. Each `run` of the updater takes
the resolved WAN address and the listed groups. It walks every ingress
permission of every group in order. For each permission whose first IPv6 range,
and then whose first IPv4 range, carries the tag, it:

- does nothing when the range's address equals the WAN address;
- revokes the whole permission and authorizes a rule for the WAN address when
  the addresses differ;
- aborts the process when the range's CIDR does not parse.

After a group has been scanned, a brand-new rule is created when the global
`tagexists` counter is still 0 and the tag is non-empty.

The model follows `main.go`:

- `wrappers.dfy`: `Option` and `Result`, for Go's nil pointers and error returns.
- `net.dfy`: abstract IP addresses tagged with a family. `NetLib` carries
  `net.ParseCIDR` (the address part only) and `IP.String` as uninterpreted
  total functions.
- `ec2.dfy`: IP ranges, ingress permissions, security groups, and the two gateway
  calls, `Revoke` and `Authorize`. Well-formedness: a range list that is not nil
  is not empty.
- `rules.dfy`: the permission `addNewSecurityGroupRule` sends.
- `reconcile.dfy`: the reconciliation pass as functions over a `Pass`. A `Pass`
  holds the trace of gateway calls, the value of `tagexists`, and the outcome
  (`Ok`, or `Abort` with the reason `exitErrorf` was called).
- `updater.dfy`: class `Reconciler`. It holds the `tagexists` field and the
  trace, and its methods mirror `run` and the two gateway helpers with nested
  `while` loops. Each method is proved to produce exactly the trace and counter
  of the specification functions.
- `reconcile_lemmas.dfy`: the properties of the pass.

The model follows the code as written. Points a reader may not expect:

- `tagexists` is one process-wide counter. It is never reset between groups or
  between runs, so once any tagged range has been seen, no later group in this
  run or any later run gets a create (`NoCreateOnceSeen`). It is not a per-group
  flag.
- A permission that has both IPv6 and IPv4 ranges is examined twice, once per
  slot. It is not skipped (`BothRangesAreExamined`).
- Dual-stack rules are not independent. A tagged rule of the other address
  family never equals the WAN address, so it is revoked and a second rule of the
  WAN address's family is added (`OtherFamilyRuleIsReplaced`).
- Failures of the revoke and authorize calls are discarded. The code builds an
  error value and drops it, so they are neither reported nor able to stop the
  pass.

## Model

| member | source | states |
|---|---|---|
| `Net.HostSuffix` | main.go:41-61 | "/32" exactly for an address with a 4-byte form, "/128" exactly for any other |
| `Rules.HostCidr` | main.go:41-61 | the CIDR starts with the printed address and is that address plus "/32" exactly for a V4 address, plus "/128" exactly for a V6 one |
| `Rules.NewRule` | main.go:38-81 | the added permission has protocol "-1" and one range described by the tag; for a V4 address it is in the IPv4 slot with CIDR `ipString(wanip)+"/32"`, otherwise in the IPv6 slot with `ipString(wanip)+"/128"`; the other slot is nil |
| `Reconciliation.ExamineSlot` | main.go:122-139 | one range-slot block (IPv6 at 122-139, IPv4 at 141-158): the trace only grows, and it grows exactly when the first range is tagged and parses to an address other than the WAN address; the counter becomes 1 exactly when the range is tagged; it aborts exactly when a tagged CIDR does not parse, and then appends nothing |
| `Reconciliation.ExaminePermission` | main.go:121-159 | one loop iteration: the trace only grows, and only for a permission with a stale tagged range; the counter becomes 1 exactly when the permission carries the tag; the only abort is an unparsable CIDR |
| `Reconciliation.ScanPermissions` | main.go:121-160 | the inner loop only appends to the trace; the counter stays as it was or becomes 1; the only abort it causes is an unparsable CIDR |
| `Reconciliation.ScanGroup` | main.go:161-164 | one group: after the permissions' calls, at most one create is appended, and only when the counter was 0 before the group and the tag is non-empty; counter old-or-1; the only abort is an unparsable CIDR |
| `Reconciliation.ScanGroups` | main.go:119-165 | the outer loop only appends to the trace; the counter stays as it was or becomes 1; the only abort it causes is an unparsable CIDR |
| `Reconciliation.Reconcile` | main.go:92-166 | one `run`: the trace only grows and the counter stays or becomes 1; a missing WAN address aborts first, then a failed listing, and both leave trace and counter unchanged; otherwise the only abort is an unparsable CIDR |
| `Updater.Reconciler.constructor` | main.go:20 | the process starts with `tagexists` 0, no gateway call issued and not exited |
| `Updater.Reconciler.RevokeOldRule` | main.go:22-36 | appends exactly one revoke of the whole permission on the group; its error is discarded |
| `Updater.Reconciler.AddNewRule` | main.go:38-81 | appends exactly one authorize of `NewRule` on the group; its error is discarded |
| `Updater.Reconciler.CheckRange` | main.go:122-139 | one range-slot block: the new trace and counter, and whether the CIDR parsed, are those of `ExamineSlot` |
| `Updater.Reconciler.CheckPermissions` | main.go:121-160 | the inner loop: the new trace and counter, and whether it completed, are those of `ScanPermissions` |
| `Updater.Reconciler.Run` | main.go:92-166 | one `run`: the new trace, the counter and the outcome are those of `Reconcile` started from the state before the call; `tagexists` stays 0 or 1; the process has exited exactly when the outcome is an abort, and an exited process is never run again |
| `ReconcileLemmas.PermissionsAbortIsFinal` | main.go:125-129 | after an abort in the inner loop, no later permission of the group changes the trace or counter |
| `ReconcileLemmas.GroupsAbortIsFinal` | main.go:119-165 | after an abort, no later group changes the trace or counter: calls already made stay, nothing further is appended |
| `ReconcileLemmas.ExaminePermissionEffect` | main.go:121-160 | a permission adds no call, or one or two replacements of itself, and replacements only when one of its tagged ranges is stale; the counter is 1 afterwards exactly when the permission carries the tag |
| `ReconcileLemmas.UntaggedPermissionIsInert` | main.go:122-142 | a permission whose first ranges have a nil description or one not equal to the tag adds no call and leaves the counter unchanged |
| `ReconcileLemmas.MatchingRangeCausesNoCall` | main.go:124-150 | a tagged range whose parsed address equals the WAN address adds no call and sets the counter to 1 |
| `ReconcileLemmas.StaleRangeIsReplaced` | main.go:132-137 | a tagged range whose parsed address differs, with the other slot untagged or matching, appends exactly a revoke of that whole permission (taking a matching range in the other slot with it), then an authorize for the WAN address on the same group |
| `ReconcileLemmas.BothRangesAreExamined` | main.go:122-158 | a permission with both slots tagged and stale is revoked and re-added twice, in that order |
| `ReconcileLemmas.UnparsableRangeAborts` | main.go:125-148 | a tagged range whose CIDR does not parse aborts with the counter at 1; nothing is appended except, when the unparsable range is the IPv4 one, the replacement already made for a stale IPv6 range of the same permission |
| `ReconcileLemmas.OtherFamilyRuleIsReplaced` | main.go:130-137 | with a V4 WAN address, a group holding a matching IPv4 rule and an IPv6 rule under the tag revokes the IPv6 rule and adds a second IPv4 rule |
| `ReconcileLemmas.ScanGroupsAppend` | main.go:119-165 | groups are processed in input order: scanning `g1 + g2` is scanning `g1`, then `g2` from the resulting state |
| `ReconcileLemmas.PermissionCallsAreJustified` | main.go:121-160 | every call from the inner loop names the group; a revoke names one of its permissions that has a tagged, stale range; an authorize carries `NewRule` |
| `ReconcileLemmas.GroupCallsAreJustified` | main.go:119-165 | every call of a pass is justified by a listed group: no untagged, matching or unlisted permission is ever revoked |
| `ReconcileLemmas.PermissionIssuesReplacements` | main.go:132-137 | a permission issues only whole (revoke, authorize) pairs on one group |
| `ReconcileLemmas.PermissionsIssueReplacements` | main.go:121-160 | the inner loop never issues a lone authorize |
| `ReconcileLemmas.GroupsIssueOnlyReplacements` | main.go:161-164 | with a non-zero counter, a scan of any groups issues only replacements, so no group is given a create, and the counter stays non-zero |
| `ReconcileLemmas.NoCreateOnceSeen` | main.go:20-20 | since `tagexists` is never reset, a run started after any tagged range was seen (earlier group or earlier run) issues only replacements |
| `ReconcileLemmas.CounterStaysZeroIffUntagged` | main.go:122-143 | from a zero counter, a completed inner loop leaves it 0 exactly when no permission carries the tag |
| `ReconcileLemmas.CreateIffUntagged` | main.go:161-164 | from a zero counter, the create is appended after a group if and only if the tag is non-empty and no permission of the group carries it; otherwise nothing is appended |
| `ReconcileLemmas.UntaggedPermissionsAreInert` | main.go:121-142 | a group with no tagged permission leaves trace and counter as they were |
| `ReconcileLemmas.CreateInEveryUntaggedGroup` | main.go:119-165 | with a zero counter, a non-empty tag and no tagged rule anywhere, each listed group gets exactly one create, in group order, and the counter stays 0 |
| `ReconcileLemmas.CreatedRuleIsMatched` | main.go:40-69 | the rule `addNewSecurityGroupRule` creates carries the tag and, when its CIDR parses back to the WAN address, the next pass treats it as matching |
| `ReconcileLemmas.QuietPermissions` | main.go:121-160 | when the printed host CIDR of the WAN address parses back to it, permissions whose only tagged member is the created rule issue no call and do not abort; the counter becomes 1 if that rule is present |
| `ReconcileLemmas.SecondPassIsQuiet` | main.go:119-165 | idempotence: when the printed host CIDR of the WAN address parses back to it, a pass over groups that each hold the created rule, and no other tagged rule, issues no call and does not abort |
| `ReconcileLemmas.EarlyFailureIssuesNoCall` | main.go:93-118 | failure to obtain the WAN address, or of the group listing, aborts before any revoke or authorize, with the counter unchanged |

## Left out

- `main`: the flag parsing, the usage check and the endless loop with its 300-second sleep (main.go:173-188). Only the fact that `tagexists` survives from one `Run` to the next is modelled: it is a field of `Reconciler`.
- `sgGroupID.String` and `Set` (main.go:83-90): command-line flag glue.
- The external-IP consensus lookup (main.go:93-94) is network I/O. Its result is the `Option<IP>` argument of `Run`.
- AWS session creation and `DescribeSecurityGroups` (main.go:99-118) are SDK I/O. The listing is a `Result` argument. On failure it carries the AWS error code. Every failure aborts; the switch on the code only picks the exit message. The ignored error of `session.NewSession` is not modelled.
- The EC2 revoke and authorize calls are entries appended to a trace. There is no remote firewall state, and their errors, which the code discards, are not modelled.
- Logging with `fmt.Printf`, the discarded `fmt.Errorf` values, and the exit status. `exitErrorf` (main.go:168-171) becomes an `Abort` outcome, after which the `Reconciler` is marked as exited and cannot be run again.
- The internals of `net.ParseCIDR`, `IP.String`, `To4` and `net.IP.Equal`. Addresses carry a family, with V4 meaning that `To4()` is not nil. Equality of the `IP` values stands for `net.IP.Equal`, so an IPv4-mapped IPv6 address counts as family V4.
- The panic on a non-nil but empty range list (main.go:123, 142) is excluded by a precondition. The panic on a nil `CidrIp`/`CidrIpv6` pointer is excluded by typing the CIDR as a plain string.
- Permission fields other than the protocol and the two range lists (ports, prefix lists, group pairs) are not examined by the code. They are not modelled: a revoke carries the permission value as listed.
