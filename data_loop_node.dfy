/** The fields of a loop node (DataLoopNode::NodeData) that the modelled routines read or write. */
module DataLoopNode {
  datatype NodeData = NodeData(
    temp: real,
    humRat: real,
    enthalpy: real,
    quality: real,
    press: real,
    massFlowRate: real,
    massFlowRateMax: real,
    massFlowRateMin: real,
    massFlowRateMaxAvail: real,
    massFlowRateMinAvail: real,
    co2: real,
    genContam: real)
}
