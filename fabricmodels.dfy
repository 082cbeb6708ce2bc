/**
 * The single-file copy of the fabric models (py_netauto/datamodel/models.py),
 * whose device role is computed by the same prefix test.
 */
module FabricModels {
  import opened Wrappers
  import NetworkDevice

  /** The copy's device, a plain value: nothing in that file changes a device after validation. */
  datatype Device = Device(hostname: string, asn: int, interfaces: seq<NetworkDevice.Interface>) {
    /** The copy's `role` property. */
    function Role(): (r: Result<string, string>)
      ensures r.Ok? <==> |hostname| > 0 && (hostname[0] == 'l' || hostname[0] == 's')
    {
      if |hostname| > 0 && hostname[0] == 'l' then Ok("leaf")
      else if |hostname| > 0 && hostname[0] == 's' then Ok("spine")
      else Err("Cannot determine role from hostname " + hostname + ".")
    }
  }

  /** The copy agrees with the device module for every hostname, errors included. */
  lemma RoleAgrees(d: Device)
    ensures d.Role() == NetworkDevice.Role(d.hostname)
  {
  }
}
