/**
  The containment check of a synthetic validator request, from tools/aegis_delivery_control/contracts.py
  and adapters.py: the specification with its three isolated roots, and what a request may do.

  Decoding the canonical JSON, digests and the size of the rendered result are parameters.
 */
module Containment {
  import opened Options
  import opened PyText

  const BINDING_VERSION := 1
  const MAX_OUTPUT_BYTES := 4096
  const ALLOWED_ACTIONS: seq<string> := ["READ_PINNED_INPUT", "EMIT_BOUNDED_RESULT"]
  const SUPPORT_ID := "aegis.synthetic.validator.in-process.v1"

  datatype Spec = Spec(
    bindingVersion: int, supportId: string, supportDigest: string, inputDigest: string,
    inputRoot: string, outputRoot: string, scratchRoot: string, allowedActions: seq<string>, maxOutputBytes: int,
    descendantMode: string, toolMode: string, networkMode: string)

  /** What a request asks for. */
  datatype Wish = Wish(
    requestedActions: seq<string>, readPath: string, outputPath: string, scratchPath: string, outputBytes: int,
    usesSubprocess: bool, usesTool: bool, usesNetwork: bool)

  /** `decode` reads a canonical JSON text with exactly the fields of a specification. */
  datatype Tables = Tables(
    decode: string -> Option<Spec>, digest: Spec -> string, outputSize: (string, string) -> nat, supportDigest: string)

  // ----- paths -----

  function DropDots(parts: seq<string>): (kept: seq<string>) {
    if parts == [] then []
    else (if parts[0] == "" || parts[0] == "." then [] else [parts[0]]) + DropDots(parts[1..])
  }

  /** `PurePosixPath(path).parts`, for a relative path. */
  function Parts(path: string): seq<string> {
    DropDots(SplitOn(path, '/'))
  }

  /** Neither absolute nor climbing, and without a backslash. */
  predicate StaysInside(path: string) {
    '\\' !in path && !("/" <= path) && ".." !in Parts(path)
  }

  /** `_is_contained_path`. */
  predicate Contained(path: string, root: string, allowRoot: bool) {
    StaysInside(path) && Parts(root) <= Parts(path) && (allowRoot || |Parts(path)| > |Parts(root)|)
  }

  /** Neither root lies in the other. */
  predicate Apart(a: string, b: string) {
    !(Parts(a) <= Parts(b)) && !(Parts(b) <= Parts(a))
  }

  lemma PrefixesNest(p: seq<string>, a: seq<string>, b: seq<string>)
    requires a <= p && b <= p
    ensures a <= b || b <= a
  {
    if |a| <= |b| {
      assert a == b[..|a|];
    } else {
      assert b == a[..|b|];
    }
  }

  /** No path lies in two roots that are apart. */
  lemma OneRoot(path: string, a: string, b: string)
    requires Apart(a, b) && Contained(path, a, true)
    ensures !Contained(path, b, true)
  {
    hide StaysInside, Parts;
    if Parts(b) <= Parts(path) {
      PrefixesNest(Parts(path), Parts(a), Parts(b));
    }
  }

  // ----- the specification -----

  /** `ValidatorContainmentSpec.validate`. */
  predicate ValidSpec(t: Tables, spec: Spec) {
    && spec.bindingVersion == BINDING_VERSION
    && spec.supportId == SUPPORT_ID && spec.supportDigest == t.supportDigest
    && spec.inputDigest != ""
    && spec.inputRoot != "" && StaysInside(spec.inputRoot)
    && spec.outputRoot != "" && StaysInside(spec.outputRoot)
    && spec.scratchRoot != "" && StaysInside(spec.scratchRoot)
    && Apart(spec.inputRoot, spec.outputRoot) && Apart(spec.inputRoot, spec.scratchRoot)
    && Apart(spec.outputRoot, spec.scratchRoot)
    && spec.allowedActions == ALLOWED_ACTIONS
    && 0 < spec.maxOutputBytes <= MAX_OUTPUT_BYTES
    && spec.descendantMode == "DENY" && spec.toolMode == "DENY" && spec.networkMode == "DENY"
  }

  /** `parse_validator_containment_spec`; `None` where it raises. */
  function ParseSpec(t: Tables, json: string): Option<Spec> {
    var spec := t.decode(json);
    if spec.Some? && ValidSpec(t, spec.value) then spec else None
  }

  /** The part of the check that looks at what the request asks for. */
  predicate Permits(t: Tables, spec: Spec, wish: Wish, resultDigest: string, verdict: string) {
    && wish.requestedActions == ALLOWED_ACTIONS
    && Contained(wish.readPath, spec.inputRoot, true)
    && Contained(wish.outputPath, spec.outputRoot, false)
    && Contained(wish.scratchPath, spec.scratchRoot, false)
    && wish.outputBytes == t.outputSize(resultDigest, verdict)
    && wish.outputBytes <= spec.maxOutputBytes && wish.outputBytes <= MAX_OUTPUT_BYTES
    && !wish.usesSubprocess && !wish.usesTool && !wish.usesNetwork
  }

  /**
    A permitted request reads and writes in three different places: no path of it lies in the
    root of another, so nothing it writes can become its input.
   */
  lemma PermittedPathsAreIsolated(t: Tables, json: string, wish: Wish, resultDigest: string, verdict: string)
    requires ParseSpec(t, json).Some? && Permits(t, ParseSpec(t, json).value, wish, resultDigest, verdict)
    ensures var spec := ParseSpec(t, json).value;
            && !Contained(wish.outputPath, spec.inputRoot, true) && !Contained(wish.scratchPath, spec.inputRoot, true)
            && !Contained(wish.readPath, spec.outputRoot, true) && !Contained(wish.scratchPath, spec.outputRoot, true)
            && !Contained(wish.readPath, spec.scratchRoot, true) && !Contained(wish.outputPath, spec.scratchRoot, true)
    ensures Parts(wish.readPath) != Parts(wish.outputPath) && Parts(wish.readPath) != Parts(wish.scratchPath)
            && Parts(wish.outputPath) != Parts(wish.scratchPath)
  {
    hide Parts, StaysInside;
    var spec := ParseSpec(t, json).value;
    OneRoot(wish.outputPath, spec.outputRoot, spec.inputRoot);
    OneRoot(wish.scratchPath, spec.scratchRoot, spec.inputRoot);
    OneRoot(wish.readPath, spec.inputRoot, spec.outputRoot);
    OneRoot(wish.scratchPath, spec.scratchRoot, spec.outputRoot);
    OneRoot(wish.readPath, spec.inputRoot, spec.scratchRoot);
    OneRoot(wish.outputPath, spec.outputRoot, spec.scratchRoot);
  }

  // ----- what the tests mean -----

  /** A relative path that never climbs, and whose parts begin with those of the root. */
  ghost predicate Beneath(path: string, root: string) {
    && '\\' !in path && (path == "" || path[0] != '/')
    && (forall i :: 0 <= i < |Parts(path)| ==> Parts(path)[i] != "..")
    && |Parts(root)| <= |Parts(path)| && Parts(path)[..|Parts(root)|] == Parts(root)
  }

  lemma BeneathMeans(path: string, root: string)
    ensures Contained(path, root, true) <==> Beneath(path, root)
    ensures Contained(path, root, false) <==> Beneath(path, root) && Parts(path) != Parts(root)
  {
    hide Parts;
    assert "/" <= path <==> path != "" && path[0] == '/';
    assert |Parts(path)| == |Parts(root)| && Parts(path)[..|Parts(root)|] == Parts(root) ==> Parts(path) == Parts(root);
  }

  /** The three roots are relative, never climb, and none lies in another; everything else is denied. */
  ghost predicate Isolating(t: Tables, spec: Spec) {
    && spec.bindingVersion == 1 && spec.supportId == "aegis.synthetic.validator.in-process.v1"
    && spec.supportDigest == t.supportDigest && spec.inputDigest != ""
    && (forall root :: root in [spec.inputRoot, spec.outputRoot, spec.scratchRoot] ==> root != "" && Beneath(root, root))
    && !Beneath(spec.inputRoot, spec.outputRoot) && !Beneath(spec.outputRoot, spec.inputRoot)
    && !Beneath(spec.inputRoot, spec.scratchRoot) && !Beneath(spec.scratchRoot, spec.inputRoot)
    && !Beneath(spec.outputRoot, spec.scratchRoot) && !Beneath(spec.scratchRoot, spec.outputRoot)
    && spec.allowedActions == ["READ_PINNED_INPUT", "EMIT_BOUNDED_RESULT"]
    && 1 <= spec.maxOutputBytes <= 4096
    && spec.descendantMode == "DENY" && spec.toolMode == "DENY" && spec.networkMode == "DENY"
  }

  lemma ValidSpecMeans(t: Tables, spec: Spec)
    ensures ValidSpec(t, spec) <==> Isolating(t, spec)
  {
    hide Parts;
    forall root | root in [spec.inputRoot, spec.outputRoot, spec.scratchRoot]
      ensures Beneath(root, root) <==> StaysInside(root)
    {
      BeneathMeans(root, root);
      assert Parts(root) <= Parts(root);
    }
    var roots := [spec.inputRoot, spec.outputRoot, spec.scratchRoot];
    assert roots[0] in roots && roots[1] in roots && roots[2] in roots;
    forall a, b ensures StaysInside(a) ==> (Beneath(a, b) <==> Parts(b) <= Parts(a)) {
      BeneathMeans(a, b);
    }
  }

  /** The parts of a relative path: what stands between slashes, without empty pieces and single dots. */
  lemma {:induction false} PartsAreNames(path: string, i: nat)
    requires i < |Parts(path)|
    ensures Parts(path)[i] != "" && Parts(path)[i] != "." && '/' !in Parts(path)[i] && Parts(path)[i] in SplitOn(path, '/')
  {
    SplitOnFree(path, '/');
    DroppedDots(SplitOn(path, '/'), i);
  }

  lemma {:induction false} DroppedDots(parts: seq<string>, i: nat)
    requires i < |DropDots(parts)|
    ensures DropDots(parts)[i] != "" && DropDots(parts)[i] != "." && DropDots(parts)[i] in parts
  {
    var n := |DropDots(parts)| - |DropDots(parts[1..])|;
    if i >= n {
      DroppedDots(parts[1..], i - n);
    }
  }

  /** Nothing else is dropped. */
  lemma {:induction false} NamesAreKept(parts: seq<string>, name: string)
    requires name in parts && name != "" && name != "."
    ensures name in DropDots(parts)
  {
    if parts[0] != name {
      NamesAreKept(parts[1..], name);
    }
  }
}
