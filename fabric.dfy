/**
 * The root fabric data model (py_netauto/datamodel/fabric.py and
 * topology.py): a topology of spines and leaves, and the validator that
 * hands the fabric's ASN table to every device.
 */
module Fabric {
  import opened Wrappers
  import opened NetworkDevice

  /** The spine and leaf lists. */
  class Topology {
    const spines: seq<Device>
    const leaves: seq<Device>

    constructor (spines: seq<Device>, leaves: seq<Device>)
      ensures this.spines == spines && this.leaves == leaves
    {
      this.spines := spines;
      this.leaves := leaves;
    }
  }

  /** The fabric: its metadata, its ASN table and its topology. */
  class FabricDataModel {
    const schemaVersion: string
    const schemaDescription: string
    const fabricName: string
    const mgmtVrf: string
    const fabricAsns: map<string, int>
    const topology: Topology

    constructor (schemaVersion: string, schemaDescription: string, fabricName: string, mgmtVrf: string,
                 fabricAsns: map<string, int>, topology: Topology)
      ensures this.schemaVersion == schemaVersion && this.schemaDescription == schemaDescription
      ensures this.fabricName == fabricName && this.mgmtVrf == mgmtVrf
      ensures this.fabricAsns == fabricAsns && this.topology == topology
    {
      this.schemaVersion := schemaVersion;
      this.schemaDescription := schemaDescription;
      this.fabricName := fabricName;
      this.mgmtVrf := mgmtVrf;
      this.fabricAsns := fabricAsns;
      this.topology := topology;
    }

    /**
     * `inject_fabric_asns`: every spine and every leaf carries the fabric's
     * ASN table afterwards; no other device and no other field changes, and
     * the model itself is returned.
     */
    method InjectFabricAsns() returns (self: FabricDataModel)
      modifies set d | d in topology.spines + topology.leaves
      ensures self == this
      ensures forall d :: d in topology.spines ==> d.fabricAsns == Some(fabricAsns)
      ensures forall d :: d in topology.leaves ==> d.fabricAsns == Some(fabricAsns)
    {
      var devices := topology.spines + topology.leaves;
      var i := 0;
      while i < |devices|
        invariant 0 <= i <= |devices|
        invariant forall j :: 0 <= j < i ==> devices[j].fabricAsns == Some(fabricAsns)
      {
        devices[i].fabricAsns := Some(fabricAsns);
        i := i + 1;
      }
      forall d | d in topology.spines ensures d.fabricAsns == Some(fabricAsns) {
        var j :| 0 <= j < |topology.spines| && topology.spines[j] == d;
        assert devices[j] == d;
      }
      forall d | d in topology.leaves ensures d.fabricAsns == Some(fabricAsns) {
        var j :| 0 <= j < |topology.leaves| && topology.leaves[j] == d;
        assert devices[|topology.spines| + j] == d;
      }
      self := this;
    }
  }
}
