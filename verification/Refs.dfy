/** Exact references to stored records (contracts/refs.py). */
module Refs {
  import opened Basics

  // Canonical bytes are injective on references, so a reference stands for its
  // own key wherever the program compares canonical bytes.
  datatype StoredDataRef = StoredDataRef(
    storedDataId: string,
    dataKind: string,
    contentHash: string,
    workspaceId: string,
    commitId: string,
    recordId: Option<string>)

  const PRIMITIVE := "primitive"

  // `require_record_ref(ref, "primitive")` does not raise.
  predicate IsPrimitiveRecord(ref: StoredDataRef) {
    ref.recordId.Some? && ref.dataKind == PRIMITIVE
  }

  function RecordId(ref: StoredDataRef): string
    requires ref.recordId.Some?
  {
    ref.recordId.value
  }

  // What a record's metadata says about where it belongs.
  datatype Scope = Scope(analysisId: string, workspaceId: string, commitId: string)

  // `validate_ref_scope` does not raise; the analysis is no part of a reference.
  predicate InWorkspace(ref: StoredDataRef, scope: Scope) {
    ref.workspaceId == scope.workspaceId && ref.commitId == scope.commitId
  }
}
