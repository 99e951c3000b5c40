/** The ingress rule the updater asks EC2 to add for the current WAN address. */
module Rules {
  import opened Wrappers
  import opened Net
  import opened Ec2

  /** The CIDR text for a single host: the printed address followed by "/32" or "/128". */
  function HostCidr(wanip: IP, lib: NetLib): (cidr: string)
    ensures lib.ipString(wanip) <= cidr
    ensures cidr == lib.ipString(wanip) + "/32" <==> wanip.family == V4
    ensures cidr == lib.ipString(wanip) + "/128" <==> wanip.family == V6
  {
    lib.ipString(wanip) + HostSuffix(wanip.family)
  }

  /**
   * The permission sent by `addNewSecurityGroupRule`: all protocols, one range for
   * the WAN address, described by the tag, in the range slot of the address's family.
   */
  function NewRule(tag: string, wanip: IP, lib: NetLib): (r: IpPermission)
    ensures r.ipProtocol == "-1"
    ensures wanip.family == V4 ==>
              r.ipRanges == Some([IpRange(lib.ipString(wanip) + "/32", Some(tag))]) && r.ipv6Ranges == None
    ensures wanip.family == V6 ==>
              r.ipv6Ranges == Some([IpRange(lib.ipString(wanip) + "/128", Some(tag))]) && r.ipRanges == None
    ensures WellFormedPermission(r)
  {
    var range := [IpRange(HostCidr(wanip, lib), Some(tag))];
    if wanip.family == V4 then IpPermission("-1", Some(range), None)
    else IpPermission("-1", None, Some(range))
  }
}
