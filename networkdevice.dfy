/**
 * A spine or leaf switch of the fabric (py_netauto/datamodel/device.py): its
 * hostname, ASN and interfaces, and the role its hostname's first letter
 * gives it.
 */
module NetworkDevice {
  import opened Wrappers
  import opened Text

  /** A network interface; addresses are kept as their text. */
  datatype Interface = Interface(
    name: string,
    ipv4: string,
    ipv6: Option<string>,
    description: Option<string>,
    remoteDevice: Option<string>)

  /** The ValueError message for a hostname that names no role. */
  function RoleError(hostname: string): string {
    "Cannot determine role from hostname " + hostname + "."
  }

  /** `Device.role`: "leaf" for a hostname starting with "l", "spine" for one starting with "s", else the error. */
  function Role(hostname: string): (r: Result<string, string>)
    ensures r.Ok? <==> |hostname| > 0 && (hostname[0] == 'l' || hostname[0] == 's')
    ensures r.Ok? ==> r.value == "leaf" || r.value == "spine"
  {
    if |hostname| > 0 && hostname[0] == 'l' then Ok("leaf")
    else if |hostname| > 0 && hostname[0] == 's' then Ok("spine")
    else Err(RoleError(hostname))
  }

  /**
   * Only the first character decides: hostnames sharing it get the same
   * role, "l" means leaf and "s" spine, and the error names the hostname.
   */
  lemma RoleByFirstChar(h1: string, h2: string)
    ensures |h1| > 0 && |h2| > 0 && h1[0] == h2[0] ==> Role(h1).Ok? == Role(h2).Ok? && (Role(h1).Ok? ==> Role(h1) == Role(h2))
    ensures Role(h1) == Ok("leaf") <==> |h1| > 0 && h1[0] == 'l'
    ensures Role(h1) == Ok("spine") <==> |h1| > 0 && h1[0] == 's'
    ensures Role(h1).Err? ==> Role(h1).error == RoleError(h1) && Contains(Role(h1).error, h1)
    ensures Role([]).Err?
  {
    if Role(h1).Err? {
      ContainsInfix("Cannot determine role from hostname ", h1, ".");
    }
  }

  /**
   * A device. Its parsed fields never change; `fabricAsns` is the private
   * attribute the fabric's validator attaches after construction.
   */
  class Device {
    const hostname: string
    const asn: int
    const interfaces: seq<Interface>
    var fabricAsns: Option<map<string, int>>

    constructor (hostname: string, asn: int, interfaces: seq<Interface>)
      ensures this.hostname == hostname && this.asn == asn && this.interfaces == interfaces
      ensures fabricAsns.None?
    {
      this.hostname := hostname;
      this.asn := asn;
      this.interfaces := interfaces;
      fabricAsns := None;
    }
  }
}
