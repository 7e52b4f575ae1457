/** The version record every published layout and initial state is keyed by. */
module RuntimeData {
  /** runtimedata.Version: major, minor and patch only. */
  datatype Version = Version(major: nat, minor: nat, patch: nat)
}
