/** The scenarios a dataset run can be driven by (`backend/simulator/dataset/run_config.py`). */
module Scenarios {
  datatype Scenario = NormalOperation | CoolingDegradation | HydrogenSupplyIssue | SensorAnomaly
}
