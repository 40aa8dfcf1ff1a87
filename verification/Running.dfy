/** What it means that a file can be run: every reference an instruction holds leads to the
    block of its schema, or to nothing for what is no schema. */
module Running {
  import opened Bytes
  import opened Ast
  import opened Keywords
  import opened Semantics
  import opened Layout
  import opened Code
  import opened Agreement
  import opened PoolSizes
  import opened Placement
  import opened Compiler
  import opened Meaning

  /** The file, the offset table it was written with, and the schema node being run. */
  datatype Ctx = Ctx(env: Env, file: bytes, constants: nat, offs: seq<nat>, at: nat, bound: nat)

  /** A file with a good header whose constant pool starts at `constants`. */
  ghost predicate FileOk(file: bytes, constants: nat) {
    && 16 <= constants <= |file| < 0x8000_0000
    && Here(file, 0, Header(constants - 16, |file| - constants))
  }

  /** Either the block of `s` stands at this offset, or `s` is no schema and has none. */
  ghost predicate Reached(env: Env, file: bytes, constants: nat, offs: seq<nat>, at: nat, s: Tree, offset: uint32) {
    && constants <= |file|
    && ((&& Placed(env, file[..constants], file[constants..], offs, at, s)
         && at < |offs| && offset == offs[at] && Exact(s))
        || (!ValidSub(s) && offset == NO_OFFSET))
  }

  ghost predicate RefReady(c: Ctx, r: Ref) {
    && Len(r.sub) < c.bound
    && Reached(c.env, c.file, c.constants, c.offs, c.at + r.rel, r.sub, Offset(c.offs, c.at, r))
  }

  ghost predicate OptReady(c: Ctx, r: Option<Ref>) {
    r.Some? ==> RefReady(c, r.value)
  }

  ghost predicate RulesReady(c: Ctx, rules: seq<Rule>) {
    forall j :: 0 <= j < |rules| ==> RefReady(c, rules[j].ref)
  }

  ghost predicate AddReady(c: Ctx, add: AddRule) {
    add.Checked? ==> RefReady(c, add.ref) && ValidSub(add.ref.sub)
  }

  /** An instruction the compiler can have emitted. */
  ghost predicate InstrReady(c: Ctx, i: Instr) {
    match i
    case TypeI(_) => true
    case NumI(k, _) => IsNumKw(k)
    case CountI(k, _) => IsIntKw(k)
    case UniqueI => true
    case StrI(k, _) => IsStrKw(k)
    case SubI(k, ref) => IsSubKw(k) && k != KIf && RefReady(c, ref)
    case ManyI(k, count, refs) => IsManyKw(k) && count == |refs| && forall j :: 0 <= j < |refs| ==> RefReady(c, refs[j])
    case IfI(cond, thn, els) => RefReady(c, cond) && OptReady(c, thn) && OptReady(c, els)
    case RequiredI(count, names) => count == |names|
    case PropsI(np, npp, add, props, pats) =>
      np == |props| && npp == |pats| && RulesReady(c, props) && RulesReady(c, pats) && AddReady(c, add)
  }

  lemma Small(file: bytes, pc: nat, n: nat, bs: bytes)
    requires Here(file, pc, bs) && |file| < 0x8000_0000 && n <= |bs|
    ensures Wrap32(n) == n && n < 0x8000_0000
  {
  }

  lemma FileSmall(file: bytes, constants: nat)
    requires FileOk(file, constants)
    ensures |file| < 0x8000_0000
  {
    hide Header;
    hide Here;
  }

  lemma RefReadyIs(c: Ctx, r: Ref)
    requires RefReady(c, r)
    ensures Len(r.sub) < c.bound
    ensures Reached(c.env, c.file, c.constants, c.offs, c.at + r.rel, r.sub, Offset(c.offs, c.at, r))
  {
    hide Reached;
    hide Len;
    hide Offset;
  }

  ghost predicate RefsReady(c: Ctx, refs: seq<Ref>) {
    forall j :: 0 <= j < |refs| ==> RefReady(c, refs[j])
  }

  lemma RefsReadyAt(c: Ctx, refs: seq<Ref>, j: nat)
    requires RefsReady(c, refs) && j < |refs|
    ensures RefReady(c, refs[j])
  {
    hide RefReady;
  }

  lemma OptReadyIs(c: Ctx, r: Option<Ref>)
    requires OptReady(c, r)
    ensures r.Some? ==> RefReady(c, r.value)
  {
    hide RefReady;
  }

  lemma ReachedCases(env: Env, file: bytes, constants: nat, offs: seq<nat>, at: nat, s: Tree, offset: uint32)
    requires Reached(env, file, constants, offs, at, s, offset)
    ensures constants <= |file|
    ensures (&& Placed(env, file[..constants], file[constants..], offs, at, s)
             && at < |offs| && offset == offs[at] && Exact(s))
            || (!ValidSub(s) && offset == NO_OFFSET)
  {
    hide Placed;
    hide ValidSub;
    hide Exact;
  }

  /** A block that stands in the code is not empty, so its offset lies inside. */
  lemma PlacedInside(env: Env, code: bytes, pool: bytes, offs: seq<nat>, at: nat, s: Tree)
    requires Placed(env, code, pool, offs, at, s)
    ensures at < |offs| && offs[at] < |code| && BlockAt(env, code, pool, offs, at, s)
  {
    hide Visits;
    hide PlacedVisits;
    hide EncAll;
    hide DataAll;
    hide NodeInstrs;
    hide SkipsUnset;
    var d :| BlockWith(env, code, pool, offs, at, s, d);
  }

  lemma RulesReadyAt(c: Ctx, rules: seq<Rule>, j: nat)
    requires RulesReady(c, rules) && j < |rules|
    ensures RefReady(c, rules[j].ref)
  {
    hide RefReady;
  }
}
