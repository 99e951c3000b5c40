/**
 * Abstract network addresses. The model does not look inside addresses: the
 * standard library's CIDR parser and address printer are carried as
 * uninterpreted total functions, and addresses are compared as values.
 */
module Net {
  import opened Wrappers

  /** V4 stands for an address whose 4-byte form exists (`To4() != nil`), V6 for every other one. */
  datatype Family = V4 | V6

  /**
   * An IP address. Two addresses are equal exactly when `net.IP.Equal` would say so,
   * so an IPv4-mapped IPv6 address is represented with family V4.
   */
  datatype IP = IP(family: Family, address: nat)

  /**
   * The parts of the Go `net` package the reconciler relies on:
   * `parseCIDR` returns the address part of `net.ParseCIDR` (the prefix length is
   * dropped) or None when it reports an error; `ipString` is `IP.String`.
   */
  datatype NetLib = NetLib(parseCIDR: string -> Option<IP>, ipString: IP -> string)

  /** The host prefix length written after an address of the given family. */
  function HostSuffix(f: Family): (s: string)
    ensures s == "/32" <==> f == V4
    ensures s == "/128" <==> f == V6
  {
    match f
    case V4 => "/32"
    case V6 => "/128"
  }
}
