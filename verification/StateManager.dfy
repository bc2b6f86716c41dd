/** The client's local record of one upload: the manifest file and the completion log. */
module StateManager {
  import opened Basics

  /** What the manifest file holds. */
  datatype Blueprint = Blueprint(totalSize: int, modified: int, session: int, hashes: seq<Hash>)

  /** The manifest in memory: the blueprint and the bits read from the log. */
  datatype UploadManifest = UploadManifest(plan: Blueprint, completed: seq<bool>)

  function Unmarked(n: nat): seq<bool> {
    seq(n, i => false)
  }

  class LocalStateManager {
    var manifest: Option<Blueprint>
    var log: seq<int>

    constructor ()
      ensures manifest == None && log == []
    {
      manifest, log := None, [];
    }

    method SaveUploadManifest(m: UploadManifest)
      modifies this`manifest
      ensures manifest == Some(m.plan)
    {
      manifest := Some(m.plan);
    }

    /** Appends one line per index; earlier lines stay. */
    method AppendCompletedIndices(indices: seq<int>)
      modifies this`log
      ensures log == old(log) + indices
    {
      for i := 0 to |indices|
        invariant log == old(log) + indices[..i]
      {
        assert old(log) + indices[..i + 1] == old(log) + indices[..i] + [indices[i]];
        log := log + [indices[i]];
      }
      assert indices[..|indices|] == indices;
    }

    /** Bit i is set exactly when an in-range i is in the log. */
    method LoadUploadManifest() returns (m: UploadManifest)
      requires manifest.Some?
      ensures m.plan == manifest.value && |m.completed| == |m.plan.hashes|
      ensures forall i :: 0 <= i < |m.completed| ==> (m.completed[i] <==> i in log)
    {
      var bits := Unmarked(|manifest.value.hashes|);
      for k := 0 to |log|
        invariant |bits| == |manifest.value.hashes|
        invariant forall i :: 0 <= i < |bits| ==> (bits[i] <==> i in log[..k])
      {
        if 0 <= log[k] < |bits| {
          bits := bits[log[k] := true];
        }
      }
      assert log[..|log|] == log;
      m := UploadManifest(manifest.value, bits);
    }

    /** Removes the manifest and the log together. */
    method DeleteUploadManifest()
      modifies this
      ensures manifest == None && log == []
    {
      manifest, log := None, [];
    }
  }
}
