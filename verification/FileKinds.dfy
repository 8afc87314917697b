/** What a candidate does to a file (crates/workflow-core/src/candidate.rs:24-29). */
module FileKinds {

  datatype FileKind = Added | Deleted | Generated | Modified
}
