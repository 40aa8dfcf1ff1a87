/** Compiler correctness: validating with compiled code is evaluating the schema
    (src/validation/schema.c with src/validation/validate.c). */
module Validation {
  import opened Bytes
  import opened Ast
  import opened Keywords
  import opened Semantics
  import opened Layout
  import opened Code
  import opened Sizes
  import opened Agreement
  import opened PoolSizes
  import opened Walk
  import opened Cover
  import opened Placement
  import opened Pass1
  import opened NodeEmission
  import opened Compiler
  import opened Meaning
  import opened Running
  import opened Ready
  import opened Interp

  lemma CompiledMeans(env: Env, file: bytes, offs: seq<nat>, root: nat, t: Tree)
    requires Compiled(env, file, offs, root, t)
    ensures 16 + Size1(t) + Data1(t) == |file| < 0x8000_0000
    ensures Here(file, 0, Header(Size1(t), Data1(t))) && Laid(offs, root, t, 16)
    ensures Placed(env, file[..16 + Size1(t)], file[16 + Size1(t)..], offs, root, t)
  {
    hide Size1;
    hide Data1;
    hide Header;
    hide Here;
    hide Laid;
    hide Placed;
  }

  lemma MakeFileOk(file: bytes, constants: nat)
    requires 16 <= constants <= |file| < 0x8000_0000 && Here(file, 0, Header(constants - 16, |file| - constants))
    ensures FileOk(file, constants)
  {
    hide Header;
    hide Here;
  }

  /** A compiled file can be run from its first block. */
  lemma CompiledRuns(env: Env, file: bytes, offs: seq<nat>, root: nat, t: Tree)
    requires Compiled(env, file, offs, root, t) && Exact(t)
    ensures FileOk(file, 16 + Size1(t))
    ensures Reached(env, file, 16 + Size1(t), offs, root, t, 16)
  {
    hide *;
    CompiledMeans(env, file, offs, root, t);
    MakeFileOk(file, 16 + Size1(t));
    LaidMeans(offs, root, t, 16);
    MakeReached(env, file, 16 + Size1(t), offs, root, t, 16);
  }

  /** Every compiled file of a schema on which the two passes agree answers as the schema
      itself does. */
  method RunCompiled(env: Env, file: bytes, data: seq<Node>, node: nat,
                     ghost offs: seq<nat>, ghost root: nat, ghost t: Tree, ghost d: Tree) returns (ok: bool)
    requires Compiled(env, file, offs, root, t) && Exact(t)
    requires At(data, node, d) && Sane(d)
    ensures ok == Accepts(env, t, d)
  {
    hide *;
    CompiledRuns(env, file, offs, root, t);
    ok := ValidateBytecode(env, file, data, 16, node, 16 + Size1(t), offs, root, t, d);
  }

  /** Compiling a schema on which the two passes agree, and running it on a value, accepts
      exactly the values the schema tree accepts; a later keyword replaces an earlier one. */
  method CompileAndValidate(env: Env, schema: seq<Node>, root: nat, data: seq<Node>, node: nat,
                            ghost t: Tree, ghost d: Tree) returns (ok: bool)
    requires At(schema, root, t) && WfTree(t) && Exact(t) && Size1(t) + Data1(t) + 16 < 0x8000_0000
    requires At(data, node, d) && Sane(d)
    ensures ok == Accepts(env, t, d)
  {
    hide *;
    AtBound(schema, root, t);
    var file, offs := CompileSchema(env, schema, root, t);
    ok := RunCompiled(env, file[..], data, node, offs, root, t, d);
  }

  // ---------------------------------------------------------------- jumps go forward

  /** Every subschema's block starts behind the whole block of the node that refers to it,
      and inside the code. */
  lemma JumpsForward(env: Env, code: bytes, pool: bytes, offs: seq<nat>, at: nat, t: Tree, base: nat, k: nat)
    requires Laid(offs, at, t, base) && Placed(env, code, pool, offs, at, t) && k < |Visits(t)|
    ensures at + Visit(t, k).rel < |offs|
    ensures offs[at] + NodeLen(env, t) <= offs[at + Visit(t, k).rel] < |code|
    ensures NodeLen(env, t) >= 1
  {
    hide *;
    LaidMeans(offs, at, t, base);
    LaidVisit(offs, at, t, base, |Visits(t)|, k);
    VisitBaseIs(t, base, k);
    LaidMeans(offs, at + Visit(t, k).rel, Visit(t, k).sub, VisitBase(t, base, k));
    NodeAgrees(env, t);
    PlacedParts(env, code, pool, offs, at, t);
    PlacedVisit(env, code, pool, offs, at, t, |Visits(t)|, k);
    PlacedInside(env, code, pool, offs, at + Visit(t, k).rel, Visit(t, k).sub);
    NodeNotEmpty(env, t);
  }

  lemma NodeNotEmpty(env: Env, t: Tree)
    ensures NodeLen(env, t) >= 1
  {
    hide SumSlots;
    hide FieldsUpTo;
    hide HasProps;
    hide Costly;
  }
}
