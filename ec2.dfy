/** The EC2 security-group shapes the reconciler reads and the gateway calls it issues. */
module Ec2 {
  import opened Wrappers

  /**
   * One entry of an `IpRanges` or `Ipv6Ranges` list: `CidrIp` / `CidrIpv6` and the
   * optional free-text description that carries the tag.
   */
  datatype IpRange = IpRange(cidr: string, description: Option<string>)

  /**
   * One ingress permission. A range list is None when the SDK leaves the slice nil.
   * Ports, prefix lists and group pairs are not examined and are not modelled.
   */
  datatype IpPermission = IpPermission(
    ipProtocol: string,
    ipRanges: Option<seq<IpRange>>,
    ipv6Ranges: Option<seq<IpRange>>)

  /** A security group as returned by `DescribeSecurityGroups`. */
  datatype SecurityGroup = SecurityGroup(groupId: string, ipPermissions: seq<IpPermission>)

  /**
   * A call issued to the EC2 control plane: `RevokeSecurityGroupIngress` or
   * `AuthorizeSecurityGroupIngress`, each with one permission on one group.
   */
  datatype Op =
    | Revoke(groupId: string, permission: IpPermission)
    | Authorize(groupId: string, permission: IpPermission)

  /** A range list the reconciler can index: nil, or holding at least one range. */
  predicate WellFormedSlot(slot: Option<seq<IpRange>>)
  {
    slot.Some? ==> |slot.value| > 0
  }

  predicate WellFormedPermission(p: IpPermission)
  {
    WellFormedSlot(p.ipRanges) && WellFormedSlot(p.ipv6Ranges)
  }

  predicate WellFormedPermissions(perms: seq<IpPermission>)
  {
    forall p :: p in perms ==> WellFormedPermission(p)
  }

  predicate WellFormedGroups(groups: seq<SecurityGroup>)
  {
    forall g :: g in groups ==> WellFormedPermissions(g.ipPermissions)
  }
}
