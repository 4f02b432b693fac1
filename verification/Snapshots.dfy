/**
 Publishing an index: any number of builders write generations side by side and swap one manifest, while
 readers resolve and load through caches keyed by path. Any step may be the last before a crash, and any step
 before the swap may raise an exception and roll back.
 */
module Snapshots {
  import opened Options

  /** A file on disk; a write that was cut short leaves a partial one. */
  datatype File<+T> = Absent | Partial | Whole(content: T)

  /** One row of persisted vectors for each chunk, all of one dimension. */
  datatype Matrix = Matrix(rows: nat, dimension: nat)

  datatype Metadata = Metadata(generation: string, chunkCount: nat, dimension: Option<nat>)

  datatype Generation = Generation(
    chunks: File<seq<string>>,
    lexical: File<seq<string>>,
    vectors: File<Matrix>,
    meta: File<Metadata>)

  const NEW_GENERATION := Generation(Absent, Absent, Absent, Absent)

  /** What a builder means to publish: the texts of its chunks, and vectors if it has a semantic backend. */
  datatype Plan = Plan(name: string, texts: seq<string>, dimension: Option<nat>) {
    predicate HasVectors() {
      dimension.Some? && |texts| > 0
    }

    function Meta(): Metadata {
      Metadata(name, |texts|, if HasVectors() then dimension else None)
    }
  }

  datatype Stage = Chunks | Lexical | Vectors | Meta | Temp

  datatype Pc =
    | Starting
    | Writing(stage: Stage, begun: bool)
    | Replacing
    | Replaced
    | Finished
    | RollingBack
    | Stopped // failed, rolled back or crashed

  datatype Builder = Builder(plan: Plan, pc: Pc)

  /** What a reader gets from a generation's chunks and lexical rows. */
  datatype Loaded = Loaded(chunks: seq<string>, lexical: seq<string>)

  datatype Reader = Reader(resolved: Option<Metadata>, cache: map<string, Loaded>, vectorCache: map<string, Matrix>)

  datatype State = State(
    generations: map<string, Generation>,
    manifest: Option<Metadata>,
    temps: map<nat, File<Metadata>>, // one name for each builder
    builders: map<nat, Builder>,
    readers: map<nat, Reader>,
    ghost published: map<string, Generation>) // every generation that was ever swapped in, as it was then

  // ----- what the builders do -----

  /** Lexical rows are counted from the texts, one for each. */
  function LexicalRow(text: string): string {
    text
  }

  function LexicalRows(texts: seq<string>): seq<string> {
    seq(|texts|, i requires 0 <= i < |texts| => LexicalRow(texts[i]))
  }

  function Begun(g: Generation, stage: Stage): Generation {
    match stage
    case Chunks => g.(chunks := Partial)
    case Lexical => g.(lexical := Partial)
    case Vectors => g.(vectors := Partial)
    case Meta => g.(meta := Partial)
    case Temp => g
  }

  function Ended(g: Generation, stage: Stage, plan: Plan): Generation {
    match stage
    case Chunks => g.(chunks := Whole(plan.texts))
    case Lexical => g.(lexical := Whole(LexicalRows(plan.texts)))
    case Vectors => g.(vectors := Whole(Matrix(|plan.texts|, if plan.dimension.Some? then plan.dimension.value else 0)))
    case Meta => g.(meta := Whole(plan.Meta()))
    case Temp => g
  }

  function AfterStage(stage: Stage, plan: Plan): Pc {
    match stage
    case Chunks => Writing(Lexical, false)
    case Lexical => if plan.HasVectors() then Writing(Vectors, false) else Writing(Meta, false)
    case Vectors => Writing(Meta, false)
    case Meta => Writing(Temp, false)
    case Temp => Replacing
  }

  /** One file of a generation being rolled back. */
  function WithoutFile(g: Generation, stage: Stage): Generation {
    match stage
    case Chunks => g.(chunks := Absent)
    case Lexical => g.(lexical := Absent)
    case Vectors => g.(vectors := Absent)
    case Meta => g.(meta := Absent)
    case Temp => g
  }

  datatype Event =
    | Arrive(b: nat, plan: Plan)      // a builder has read its sources and picked a name
    | MakeDir(b: nat)
    | BeginFile(b: nat)
    | EndFile(b: nat)
    | Swap(b: nat)                    // the atomic replace of the manifest
    | UnlinkTemp(b: nat)
    | Raise(b: nat)
    | RemoveFile(b: nat, stage: Stage)
    | RemoveDir(b: nat)
    | Crash(b: nat)
    | Open(r: nat)                    // a reader process starts
    | Resolve(r: nat)
    | Load(r: nat)
    | LoadVectors(r: nat)
    | Evict(r: nat, name: string)

  predicate BuilderAt(s: State, b: nat, pc: Pc) {
    b in s.builders && s.builders[b].pc == pc
  }

  function WithPc(s: State, b: nat, pc: Pc): State
    requires b in s.builders
  {
    s.(builders := s.builders[b := s.builders[b].(pc := pc)])
  }

  predicate IsWriting(s: State, b: nat, begun: bool) {
    b in s.builders && s.builders[b].pc.Writing? && s.builders[b].pc.begun == begun
    && s.builders[b].plan.name in s.generations
  }

  function WithGeneration(s: State, name: string, g: Generation): State {
    s.(generations := s.generations[name := g])
  }

  /** What a fresh load of a generation gives; None where the reader raises an error. */
  function FreshLoad(g: Generation): Option<Loaded> {
    if g.chunks.Whole? && g.lexical.Whole? && |g.lexical.content| == |g.chunks.content|
    then Some(Loaded(g.chunks.content, g.lexical.content)) else None
  }

  function FreshVectors(g: Generation): Option<Matrix> {
    if g.vectors.Whole? then Some(g.vectors.content) else None
  }

  /** Exceptions come from the steps inside the guarded block; nothing after the swap raises. */
  predicate MayRaise(pc: Pc) {
    pc.Writing? || pc.Replacing?
  }

  ghost function Arrived(s: State, b: nat, plan: Plan): State {
    if b in s.builders then s else s.(builders := s.builders[b := Builder(plan, Starting)])
  }

  /** A name that is taken is an exception outside the guarded block: nothing is rolled back. */
  ghost function MadeDir(s: State, b: nat): State {
    if !BuilderAt(s, b, Starting) then s
    else if s.builders[b].plan.name in s.generations then WithPc(s, b, Stopped)
    else WithPc(WithGeneration(s, s.builders[b].plan.name, NEW_GENERATION), b, Writing(Chunks, false))
  }

  ghost function BegunFile(s: State, b: nat): State {
    if !IsWriting(s, b, false) then s else
    var Builder(plan, pc) := s.builders[b];
    var s1 := WithGeneration(s, plan.name, Begun(s.generations[plan.name], pc.stage));
    WithPc(if pc.stage.Temp? then s1.(temps := s.temps[b := Partial]) else s1, b, Writing(pc.stage, true))
  }

  ghost function EndedFile(s: State, b: nat): State {
    if !IsWriting(s, b, true) then s else
    var Builder(plan, pc) := s.builders[b];
    var s1 := WithGeneration(s, plan.name, Ended(s.generations[plan.name], pc.stage, plan));
    WithPc(if pc.stage.Temp? then s1.(temps := s.temps[b := Whole(plan.Meta())]) else s1, b, AfterStage(pc.stage, plan))
  }

  ghost function Swapped(s: State, b: nat): State {
    if !BuilderAt(s, b, Replacing) || b !in s.temps || !s.temps[b].Whole? then s else
    var m := s.temps[b].content;
    WithPc(s.(manifest := Some(m), temps := s.temps - {b},
              published := if m.generation in s.generations
                           then s.published[m.generation := s.generations[m.generation]]
                           else s.published),
           b, Replaced)
  }

  ghost function Raised(s: State, b: nat): State {
    if b !in s.builders || !MayRaise(s.builders[b].pc) then s
    else WithPc(s.(temps := s.temps - {b}), b, RollingBack)
  }

  ghost function RemovedFile(s: State, b: nat, stage: Stage): State {
    if !BuilderAt(s, b, RollingBack) || s.builders[b].plan.name !in s.generations then s else
    WithGeneration(s, s.builders[b].plan.name, WithoutFile(s.generations[s.builders[b].plan.name], stage))
  }

  ghost function RemovedDir(s: State, b: nat): State {
    if !BuilderAt(s, b, RollingBack) || s.builders[b].plan.name !in s.generations
       || s.generations[s.builders[b].plan.name] != NEW_GENERATION then s else
    WithPc(s.(generations := s.generations - {s.builders[b].plan.name}), b, Stopped)
  }

  /** Without a manifest, or without its chunks, there is no index to resolve. */
  function ResolvedBy(r: Reader, manifest: Option<Metadata>, generations: map<string, Generation>): Reader {
    if manifest.None? || manifest.value.generation !in generations
       || generations[manifest.value.generation].chunks.Absent? then r
    else r.(resolved := manifest)
  }

  function LoadedBy(r: Reader, generations: map<string, Generation>): Reader {
    if r.resolved.None? then r else
    var name := r.resolved.value.generation;
    if name in r.cache || name !in generations || FreshLoad(generations[name]).None? then r
    else r.(cache := r.cache[name := FreshLoad(generations[name]).value])
  }

  function VectorsLoadedBy(r: Reader, generations: map<string, Generation>): Reader {
    if r.resolved.None? then r else
    var name := r.resolved.value.generation;
    if name in r.vectorCache || name !in generations || FreshVectors(generations[name]).None? then r
    else r.(vectorCache := r.vectorCache[name := FreshVectors(generations[name]).value])
  }

  function EvictedBy(r: Reader, name: string): Reader {
    r.(cache := r.cache - {name}, vectorCache := r.vectorCache - {name})
  }

  ghost function WithReader(s: State, r: nat, reader: Reader): State {
    s.(readers := s.readers[r := reader])
  }

  ghost function Step(s: State, e: Event): State {
    match e
    case Arrive(b, plan) => Arrived(s, b, plan)
    case MakeDir(b) => MadeDir(s, b)
    case BeginFile(b) => BegunFile(s, b)
    case EndFile(b) => EndedFile(s, b)
    case Swap(b) => Swapped(s, b)
    case UnlinkTemp(b) => if BuilderAt(s, b, Replaced) then WithPc(s, b, Finished) else s // the file is gone already
    case Raise(b) => Raised(s, b)
    case RemoveFile(b, stage) => RemovedFile(s, b, stage)
    case RemoveDir(b) => RemovedDir(s, b)
    case Crash(b) => if b in s.builders then WithPc(s, b, Stopped) else s
    case Open(r) => if r in s.readers then s else WithReader(s, r, Reader(None, map[], map[]))
    case Resolve(r) =>
      if r in s.readers then WithReader(s, r, ResolvedBy(s.readers[r], s.manifest, s.generations)) else s
    case Load(r) => if r in s.readers then WithReader(s, r, LoadedBy(s.readers[r], s.generations)) else s
    case LoadVectors(r) => if r in s.readers then WithReader(s, r, VectorsLoadedBy(s.readers[r], s.generations)) else s
    case Evict(r, name) => if r in s.readers then WithReader(s, r, EvictedBy(s.readers[r], name)) else s
  }

  const EMPTY := State(map[], None, map[], map[], map[], map[])

  ghost function Run(s: State, events: seq<Event>): State {
    if |events| == 0 then s else Step(Run(s, events[..|events| - 1]), events[|events| - 1])
  }

  // ----- the invariant -----

  /** All files are there, and their row counts agree with each other and with the metadata. */
  predicate Complete(g: Generation, m: Metadata) {
    && g.chunks.Whole? && g.lexical.Whole? && g.meta == Whole(m)
    && |g.chunks.content| == |g.lexical.content| == m.chunkCount
    && (m.dimension.Some? ==> g.vectors == Whole(Matrix(m.chunkCount, m.dimension.value)))
  }

  /** The manifest names a complete generation. */
  predicate ActiveComplete(s: State) {
    s.manifest.Some? ==>
      s.manifest.value.generation in s.generations
      && Complete(s.generations[s.manifest.value.generation], s.manifest.value)
  }

  /** The builder's generation is its own to write. */
  predicate Owns(pc: Pc) {
    pc.Writing? || pc.Replacing? || pc.RollingBack?
  }

  function StageNumber(stage: Stage): nat {
    match stage
    case Chunks => 0
    case Lexical => 1
    case Vectors => 2
    case Meta => 3
    case Temp => 4
  }

  predicate DoneBefore(stage: Stage, pc: Pc) {
    pc.Replacing? || (pc.Writing? && StageNumber(stage) < StageNumber(pc.stage))
  }

  /** What a builder that is still writing has written so far. */
  predicate WrittenSoFar(g: Generation, plan: Plan, pc: Pc) {
    && (DoneBefore(Chunks, pc) ==> g.chunks == Whole(plan.texts))
    && (DoneBefore(Lexical, pc) ==> g.lexical == Whole(LexicalRows(plan.texts)))
    && (DoneBefore(Vectors, pc) && plan.HasVectors() ==> g.vectors == Whole(Matrix(|plan.texts|, plan.dimension.value)))
    && (DoneBefore(Meta, pc) ==> g.meta == Whole(plan.Meta()))
  }

  ghost predicate BuilderInv(s: State, b: nat)
    requires b in s.builders
  {
    var Builder(plan, pc) := s.builders[b];
    && (Owns(pc) ==> plan.name in s.generations && plan.name !in s.published)
    && (pc.Writing? || pc.Replacing? ==> plan.name in s.generations && WrittenSoFar(s.generations[plan.name], plan, pc))
    && (pc.Replacing? ==> b in s.temps && s.temps[b] == Whole(plan.Meta()))
  }

  ghost predicate PublishedInv(s: State) {
    forall name :: name in s.published ==>
      && name in s.generations && s.generations[name] == s.published[name]
      && s.published[name].meta.Whole? && s.published[name].meta.content.generation == name
      && Complete(s.published[name], s.published[name].meta.content)
  }

  predicate KnownMeta(m: Metadata, published: map<string, Generation>) {
    m.generation in published && published[m.generation].meta == Whole(m)
  }

  ghost predicate ReaderInv(r: Reader, published: map<string, Generation>) {
    && (r.resolved.Some? ==> KnownMeta(r.resolved.value, published))
    && (forall name :: name in r.cache ==> name in published && FreshLoad(published[name]) == Some(r.cache[name]))
    && (forall name :: name in r.vectorCache ==>
        name in published && FreshVectors(published[name]) == Some(r.vectorCache[name]))
  }

  /** Two builders at work never own generations of one name. */
  predicate ApartFrom(b: Builder, c: Builder) {
    Owns(b.pc) && Owns(c.pc) ==> b.plan.name != c.plan.name
  }

  ghost predicate Inv(s: State) {
    && (forall b :: b in s.builders ==> BuilderInv(s, b))
    && (forall b, c :: b in s.builders && c in s.builders && b != c ==> ApartFrom(s.builders[b], s.builders[c]))
    && PublishedInv(s)
    && (s.manifest.Some? ==> KnownMeta(s.manifest.value, s.published))
    && (forall r :: r in s.readers ==> ReaderInv(s.readers[r], s.published))
  }

  // ----- builders -----

  /** Builder `b` changes its own record, and its own generation and temporary file if it owns them. */
  ghost predicate OwnStep(s: State, s': State, b: nat) {
    && b in s.builders && b in s'.builders
    && s'.builders == s.builders[b := s'.builders[b]]
    && s'.builders[b].plan == s.builders[b].plan
    && s'.published == s.published && s'.manifest == s.manifest && s'.readers == s.readers
    && (forall c :: c != b && c in s.temps ==> c in s'.temps && s'.temps[c] == s.temps[c])
    && (forall name :: name != s.builders[b].plan.name ==> (name in s'.generations <==> name in s.generations))
    && (forall name :: name != s.builders[b].plan.name && name in s.generations ==>
        s'.generations[name] == s.generations[name])
  }

  lemma OwnStepKeepsInv(s: State, s': State, b: nat)
    requires Inv(s) && OwnStep(s, s', b) && Owns(s.builders[b].pc)
    requires BuilderInv(s', b)
    ensures Inv(s')
  {
    hide WrittenSoFar, Complete, KnownMeta, ReaderInv;
    var name := s.builders[b].plan.name;
    assert BuilderInv(s, b);
    forall c | c in s'.builders && c != b
      ensures BuilderInv(s', c)
    {
      assert BuilderInv(s, c);
    }
  }

  lemma BuilderOf(s: State, b: nat)
    requires Inv(s) && b in s.builders
    ensures BuilderInv(s, b)
  {
    hide BuilderInv;
  }

  lemma ReaderOf(s: State, r: nat)
    requires Inv(s) && r in s.readers
    ensures ReaderInv(s.readers[r], s.published) && PublishedInv(s)
    ensures s.manifest.Some? ==> KnownMeta(s.manifest.value, s.published)
  {
    hide BuilderInv, ReaderInv, PublishedInv;
  }

  lemma MakeDirKeepsInv(s: State, b: nat)
    requires Inv(s)
    ensures Inv(MadeDir(s, b))
  {
    if BuilderAt(s, b, Starting) && s.builders[b].plan.name !in s.generations {
      hide WrittenSoFar, Complete, KnownMeta, ReaderInv;
      var s' := MadeDir(s, b);
      forall c | c in s'.builders
        ensures BuilderInv(s', c)
      {
        assert BuilderInv(s, c);
        if c == b { NothingWrittenYet(NEW_GENERATION, s.builders[b].plan); }
      }
    } else if BuilderAt(s, b, Starting) {
      QuitKeepsInv(s, MadeDir(s, b), b, Stopped);
    }
  }

  lemma NothingWrittenYet(g: Generation, plan: Plan)
    ensures WrittenSoFar(g, plan, Writing(Chunks, false))
  {
  }

  lemma BegunStaysWritten(g: Generation, plan: Plan, stage: Stage)
    requires WrittenSoFar(g, plan, Writing(stage, false))
    ensures WrittenSoFar(Begun(g, stage), plan, Writing(stage, true))
  {
  }

  lemma BeginFileKeepsInv(s: State, b: nat)
    requires Inv(s) && IsWriting(s, b, false)
    ensures Inv(BegunFile(s, b))
  {
    hide Inv, WrittenSoFar, Begun;
    var s' := BegunFile(s, b);
    BuilderOf(s, b);
    var Builder(plan, pc) := s.builders[b];
    BegunStaysWritten(s.generations[plan.name], plan, pc.stage);
    assert BuilderInv(s', b);
    hide BuilderInv;
    OwnStepKeepsInv(s, s', b);
  }

  lemma EndedIsWritten(g: Generation, plan: Plan, stage: Stage)
    requires WrittenSoFar(g, plan, Writing(stage, true))
    ensures WrittenSoFar(Ended(g, stage, plan), plan, AfterStage(stage, plan))
  {
    hide LexicalRows;
  }

  lemma EndFileKeepsInv(s: State, b: nat)
    requires Inv(s) && IsWriting(s, b, true)
    ensures Inv(EndedFile(s, b))
  {
    hide Inv, WrittenSoFar, Ended, Plan.Meta, Plan.HasVectors;
    var s' := EndedFile(s, b);
    BuilderOf(s, b);
    var Builder(plan, pc) := s.builders[b];
    EndedIsWritten(s.generations[plan.name], plan, pc.stage);
    assert BuilderInv(s', b);
    hide BuilderInv;
    OwnStepKeepsInv(s, s', b);
  }

  lemma PlanIsComplete(g: Generation, plan: Plan)
    requires WrittenSoFar(g, plan, Replacing)
    ensures Complete(g, plan.Meta()) && g.meta == Whole(plan.Meta())
  {
  }

  lemma ReaderStaysSound(r: Reader, published: map<string, Generation>, name: string, g: Generation)
    requires ReaderInv(r, published) && name !in published
    ensures ReaderInv(r, published[name := g])
  {
    hide FreshLoad, FreshVectors;
  }

  lemma SwapKeepsInv(s: State, b: nat)
    requires Inv(s) && BuilderAt(s, b, Replacing)
    ensures Inv(Swapped(s, b))
  {
    hide Complete, WrittenSoFar, ReaderInv;
    var s' := Swapped(s, b);
    assert BuilderInv(s, b);
    var plan := s.builders[b].plan;
    PlanIsComplete(s.generations[plan.name], plan);
    assert s'.published == s.published[plan.name := s.generations[plan.name]];
    forall c | c in s'.builders
      ensures BuilderInv(s', c)
    {
      assert BuilderInv(s, c);
    }
    forall r | r in s'.readers
      ensures ReaderInv(s'.readers[r], s'.published)
    {
      ReaderStaysSound(s.readers[r], s.published, plan.name, s.generations[plan.name]);
    }
  }

  lemma QuitKeepsInv(s: State, s': State, b: nat, pc: Pc)
    requires Inv(s) && b in s.builders && !Owns(pc) && !pc.Replacing?
    requires s' == WithPc(s, b, pc)
    ensures Inv(s')
  {
    hide WrittenSoFar, Complete, KnownMeta, ReaderInv;
    forall c | c in s'.builders
      ensures BuilderInv(s', c)
    {
      assert BuilderInv(s, c);
    }
  }

  lemma RaiseKeepsInv(s: State, b: nat)
    requires Inv(s) && b in s.builders && MayRaise(s.builders[b].pc)
    ensures Inv(Raised(s, b))
  {
    hide Inv, WrittenSoFar;
    BuilderOf(s, b);
    assert BuilderInv(Raised(s, b), b);
    hide BuilderInv;
    OwnStepKeepsInv(s, Raised(s, b), b);
  }

  lemma RemoveKeepsInv(s: State, b: nat, stage: Stage)
    requires Inv(s) && BuilderAt(s, b, RollingBack)
    ensures Inv(RemovedFile(s, b, stage)) && Inv(RemovedDir(s, b))
  {
    hide Inv, WrittenSoFar, WithoutFile;
    BuilderOf(s, b);
    assert BuilderInv(RemovedFile(s, b, stage), b);
    assert BuilderInv(RemovedDir(s, b), b);
    hide BuilderInv;
    OwnStepKeepsInv(s, RemovedFile(s, b, stage), b);
    OwnStepKeepsInv(s, RemovedDir(s, b), b);
  }

  // ----- readers -----

  lemma ReaderStepKeepsInv(s: State, r: nat, reader: Reader)
    requires Inv(s) && ReaderInv(reader, s.published)
    ensures Inv(WithReader(s, r, reader))
  {
    hide WrittenSoFar, Complete, KnownMeta, ReaderInv;
    forall c | c in s.builders
      ensures BuilderInv(WithReader(s, r, reader), c)
    {
      assert BuilderInv(s, c);
    }
  }

  lemma ResolvingStaysSound(s: State, r: nat)
    requires Inv(s) && r in s.readers
    ensures ReaderInv(ResolvedBy(s.readers[r], s.manifest, s.generations), s.published)
  {
    hide Inv, PublishedInv, FreshLoad, FreshVectors;
    ReaderOf(s, r);
  }

  lemma LoadingStaysSound(s: State, r: nat)
    requires Inv(s) && r in s.readers
    ensures ReaderInv(LoadedBy(s.readers[r], s.generations), s.published)
    ensures ReaderInv(VectorsLoadedBy(s.readers[r], s.generations), s.published)
  {
    hide Inv, Complete, FreshLoad, FreshVectors;
    ReaderOf(s, r);
    if s.readers[r].resolved.Some? {
      assert s.readers[r].resolved.value.generation in s.published;
    }
  }

  lemma EvictingStaysSound(s: State, r: nat, name: string)
    requires Inv(s) && r in s.readers
    ensures ReaderInv(EvictedBy(s.readers[r], name), s.published)
  {
    hide Inv, PublishedInv, FreshLoad, FreshVectors;
    ReaderOf(s, r);
  }

  lemma StepKeepsInv(s: State, e: Event)
    requires Inv(s)
    ensures Inv(Step(s, e))
  {
    hide Inv, FreshLoad, FreshVectors, Begun, Ended, WithoutFile, AfterStage, ResolvedBy, LoadedBy, VectorsLoadedBy,
         EvictedBy, WithReader, ReaderInv;
    match e
    case Arrive(b, plan) => ArriveKeepsInv(s, b, plan);
    case MakeDir(b) => MakeDirKeepsInv(s, b);
    case BeginFile(b) => if IsWriting(s, b, false) { BeginFileKeepsInv(s, b); }
    case EndFile(b) => if IsWriting(s, b, true) { EndFileKeepsInv(s, b); }
    case Swap(b) => if BuilderAt(s, b, Replacing) { SwapKeepsInv(s, b); }
    case UnlinkTemp(b) => if BuilderAt(s, b, Replaced) { QuitKeepsInv(s, Step(s, e), b, Finished); }
    case Raise(b) => if b in s.builders && MayRaise(s.builders[b].pc) { RaiseKeepsInv(s, b); }
    case RemoveFile(b, stage) => if BuilderAt(s, b, RollingBack) { RemoveKeepsInv(s, b, stage); }
    case RemoveDir(b) => if BuilderAt(s, b, RollingBack) { RemoveKeepsInv(s, b, Chunks); }
    case Crash(b) => if b in s.builders { QuitKeepsInv(s, Step(s, e), b, Stopped); }
    case Open(r) => if r !in s.readers { OpenKeepsInv(s, r); }
    case Resolve(r) =>
      if r in s.readers {
        ResolvingStaysSound(s, r);
        ReaderStepKeepsInv(s, r, ResolvedBy(s.readers[r], s.manifest, s.generations));
      }
    case Load(r) =>
      if r in s.readers {
        LoadingStaysSound(s, r);
        ReaderStepKeepsInv(s, r, LoadedBy(s.readers[r], s.generations));
      }
    case LoadVectors(r) =>
      if r in s.readers {
        LoadingStaysSound(s, r);
        ReaderStepKeepsInv(s, r, VectorsLoadedBy(s.readers[r], s.generations));
      }
    case Evict(r, name) =>
      if r in s.readers {
        EvictingStaysSound(s, r, name);
        ReaderStepKeepsInv(s, r, EvictedBy(s.readers[r], name));
      }
  }

  lemma ArriveKeepsInv(s: State, b: nat, plan: Plan)
    requires Inv(s)
    ensures Inv(Arrived(s, b, plan))
  {
    hide WrittenSoFar, Complete, KnownMeta, ReaderInv;
    var s' := Arrived(s, b, plan);
    forall c | c in s'.builders
      ensures BuilderInv(s', c)
    {
      assert c in s.builders ==> BuilderInv(s, c);
    }
  }

  lemma OpenKeepsInv(s: State, r: nat)
    requires Inv(s) && r !in s.readers
    ensures Inv(WithReader(s, r, Reader(None, map[], map[])))
  {
    assert ReaderInv(Reader(None, map[], map[]), s.published);
    hide Inv, ReaderInv;
    ReaderStepKeepsInv(s, r, Reader(None, map[], map[]));
  }

  // ----- the theorems -----

  lemma {:induction false} RunKeepsInv(events: seq<Event>)
    ensures Inv(Run(EMPTY, events))
  {
    if |events| == 0 {
      assert Run(EMPTY, events) == EMPTY;
    } else {
      hide Inv, Step;
      RunKeepsInv(events[..|events| - 1]);
      StepKeepsInv(Run(EMPTY, events[..|events| - 1]), events[|events| - 1]);
    }
  }

  /** Whatever is interleaved, crashes or fails: the manifest always names a complete generation. */
  lemma ManifestIsAlwaysComplete(events: seq<Event>)
    ensures ActiveComplete(Run(EMPTY, events))
  {
    hide Run, Complete;
    RunKeepsInv(events);
  }

  lemma OnlySwapsPublish(s: State, e: Event)
    ensures !e.Swap? ==> Step(s, e).published == s.published
  {
    hide Begun, Ended, WithoutFile, AfterStage, ResolvedBy, LoadedBy, VectorsLoadedBy, EvictedBy;
  }

  lemma StepKeepsPublished(s: State, e: Event, name: string)
    requires Inv(s) && name in s.published
    ensures name in Step(s, e).published && Step(s, e).published[name] == s.published[name]
  {
    hide Inv, Complete, WrittenSoFar;
    if e.Swap? {
      if e.b in s.builders { BuilderOf(s, e.b); }
    } else {
      hide Step;
      OnlySwapsPublish(s, e);
    }
  }

  /** A generation that was ever published is never changed and never deleted. */
  lemma {:induction false} PublishedForever(before: seq<Event>, after: seq<Event>, name: string)
    requires name in Run(EMPTY, before).published
    ensures var s, s' := Run(EMPTY, before), Run(EMPTY, before + after);
            && name in s.generations && name in s'.generations && s'.generations[name] == s.generations[name]
            && name in s'.published && s'.published[name] == s.generations[name]
  {
    hide Inv, Step, Complete;
    RunKeepsInv(before);
    RunKeepsInv(before + after);
    if |after| == 0 {
      assert before + after == before;
    } else {
      var shorter := after[..|after| - 1];
      PublishedForever(before, shorter, name);
      RunKeepsInv(before + shorter);
      assert (before + after)[..|before + after| - 1] == before + shorter;
      StepKeepsPublished(Run(EMPTY, before + shorter), after[|after| - 1], name);
    }
    PublishedIsThere(Run(EMPTY, before), name);
    PublishedIsThere(Run(EMPTY, before + after), name);
  }

  lemma PublishedIsThere(s: State, name: string)
    requires Inv(s) && name in s.published
    ensures name in s.generations && s.generations[name] == s.published[name]
  {
  }

  /**
   Caches keyed by path are never stale: what a reader has cached is what a fresh load would give, its row
   counts agree, and the generation it resolved, however long ago, is still there and complete.
   */
  lemma CachesEqualFreshLoads(events: seq<Event>, r: nat)
    requires r in Run(EMPTY, events).readers
    ensures var s := Run(EMPTY, events);
            var reader := s.readers[r];
            && (forall name :: name in reader.cache ==>
                  name in s.generations && FreshLoad(s.generations[name]) == Some(reader.cache[name])
                  && |reader.cache[name].lexical| == |reader.cache[name].chunks|)
            && (forall name :: name in reader.vectorCache ==>
                  name in s.generations && FreshVectors(s.generations[name]) == Some(reader.vectorCache[name]))
            && (reader.resolved.Some? ==>
                  reader.resolved.value.generation in s.generations
                  && Complete(s.generations[reader.resolved.value.generation], reader.resolved.value))
  {
    hide Run, Complete;
    RunKeepsInv(events);
    assert ReaderInv(Run(EMPTY, events).readers[r], Run(EMPTY, events).published);
  }

  /** So a reader that resolved a generation never meets the mismatch errors. */
  lemma ResolvedGenerationsLoad(events: seq<Event>, r: nat)
    requires r in Run(EMPTY, events).readers && Run(EMPTY, events).readers[r].resolved.Some?
    ensures var s, m := Run(EMPTY, events), Run(EMPTY, events).readers[r].resolved.value;
            && m.generation in s.generations
            && FreshLoad(s.generations[m.generation]).Some?
            && |FreshLoad(s.generations[m.generation]).value.chunks| == m.chunkCount
            && (m.dimension.Some? ==>
                  FreshVectors(s.generations[m.generation]) == Some(Matrix(m.chunkCount, m.dimension.value)))
  {
    hide Run;
    CachesEqualFreshLoads(events, r);
  }

  // ----- a build that is left alone -----

  /** The steps of one build, in order. */
  function BuildSteps(b: nat, plan: Plan): seq<Event> {
    [Arrive(b, plan), MakeDir(b), BeginFile(b), EndFile(b), BeginFile(b), EndFile(b)]
    + (if plan.HasVectors() then [BeginFile(b), EndFile(b)] else [])
    + [BeginFile(b), EndFile(b), BeginFile(b), EndFile(b), Swap(b), UnlinkTemp(b)]
  }

  /** What a finished build leaves in its directory. */
  function Built(plan: Plan): Generation {
    Generation(Whole(plan.texts), Whole(LexicalRows(plan.texts)),
               if plan.HasVectors() then Whole(Matrix(|plan.texts|, plan.dimension.value)) else Absent,
               Whole(plan.Meta()))
  }

  ghost function RunFrom(s: State, events: seq<Event>): State
    decreases |events|
  {
    if |events| == 0 then s else RunFrom(Step(s, events[0]), events[1..])
  }

  /** Builder `b` has got to `pc` and written `g`, and has disturbed nothing else. */
  ghost predicate HasReached(s: State, b: nat, plan: Plan, pc: Pc, g: Generation) {
    b in s.builders && s.builders[b] == Builder(plan, pc) && plan.name in s.generations && s.generations[plan.name] == g
  }

  /** Readers and all other generations are as they were. */
  ghost predicate OnlyTouches(s: State, s': State, name: string) {
    s'.readers == s.readers && s'.generations - {name} == s.generations - {name}
  }

  lemma WritesFile(s: State, b: nat, plan: Plan, stage: Stage, g: Generation) returns (s': State)
    requires HasReached(s, b, plan, Writing(stage, false), g)
    ensures s' == Step(Step(s, BeginFile(b)), EndFile(b))
    ensures HasReached(s', b, plan, AfterStage(stage, plan), Ended(Begun(g, stage), stage, plan))
    ensures OnlyTouches(s, s', plan.name)
    ensures stage.Temp? ==> b in s'.temps && s'.temps[b] == Whole(plan.Meta())
  {
    s' := Step(Step(s, BeginFile(b)), EndFile(b));
  }

  /** A build that is left alone publishes exactly what it planned. */
  lemma UndisturbedBuildPublishes(s: State, b: nat, plan: Plan)
    requires b !in s.builders && plan.name !in s.generations
    ensures var s' := RunFrom(s, BuildSteps(b, plan));
            && s'.manifest == Some(plan.Meta())
            && plan.name in s'.generations && s'.generations[plan.name] == Built(plan)
            && OnlyTouches(s, s', plan.name)
            && b in s'.builders && s'.builders[b].pc == Finished
  {
    var s1 := Step(Step(s, Arrive(b, plan)), MakeDir(b));
    assert HasReached(s1, b, plan, Writing(Chunks, false), NEW_GENERATION);
    assert OnlyTouches(s, s1, plan.name);
    hide BegunFile, EndedFile, Step, LexicalRows;
    var s2 := WritesFile(s1, b, plan, Chunks, NEW_GENERATION);
    var s3 := WritesFile(s2, b, plan, Lexical, s2.generations[plan.name]);
    var s4 := s3;
    if plan.HasVectors() {
      s4 := WritesFile(s3, b, plan, Vectors, s3.generations[plan.name]);
    }
    var s5 := WritesFile(s4, b, plan, Meta, s4.generations[plan.name]);
    var s6 := WritesFile(s5, b, plan, Temp, s5.generations[plan.name]);
    SwapsAndFinishes(s6, b, plan, Built(plan));
    BuildStepsInOrder(s, b, plan, s1, s2, s3, s4, s5, s6);
  }

  lemma SwapsAndFinishes(s: State, b: nat, plan: Plan, g: Generation)
    requires HasReached(s, b, plan, Replacing, g) && b in s.temps && s.temps[b] == Whole(plan.Meta())
    ensures var s' := Step(Step(s, Swap(b)), UnlinkTemp(b));
            && HasReached(s', b, plan, Finished, g) && s'.manifest == Some(plan.Meta())
            && OnlyTouches(s, s', plan.name)
  {
  }

  lemma TwoSteps(s: State, e: Event, f: Event, rest: seq<Event>)
    ensures RunFrom(s, [e, f] + rest) == RunFrom(Step(Step(s, e), f), rest)
  {
    hide Step;
    assert ([e, f] + rest)[1..] == [f] + rest;
    assert ([f] + rest)[1..] == rest;
  }

  lemma BuildStepsInOrder(s: State, b: nat, plan: Plan, s1: State, s2: State, s3: State, s4: State, s5: State,
                          s6: State)
    requires s1 == Step(Step(s, Arrive(b, plan)), MakeDir(b))
    requires s2 == Step(Step(s1, BeginFile(b)), EndFile(b))
    requires s3 == Step(Step(s2, BeginFile(b)), EndFile(b))
    requires s4 == if plan.HasVectors() then Step(Step(s3, BeginFile(b)), EndFile(b)) else s3
    requires s5 == Step(Step(s4, BeginFile(b)), EndFile(b))
    requires s6 == Step(Step(s5, BeginFile(b)), EndFile(b))
    ensures RunFrom(s, BuildSteps(b, plan)) == Step(Step(s6, Swap(b)), UnlinkTemp(b))
  {
    hide Step, RunFrom;
    var begin, end := BeginFile(b), EndFile(b);
    var last := [Swap(b), UnlinkTemp(b)];
    var r5 := [begin, end] + last;
    var r4 := [begin, end] + r5;
    var r3 := if plan.HasVectors() then [begin, end] + r4 else r4;
    var r2 := [begin, end] + r3;
    var r1 := [begin, end] + r2;
    assert BuildSteps(b, plan) == [Arrive(b, plan), MakeDir(b)] + r1;
    TwoSteps(s, Arrive(b, plan), MakeDir(b), r1);
    TwoSteps(s1, begin, end, r2);
    TwoSteps(s2, begin, end, r3);
    TwoSteps(s3, begin, end, r4);
    TwoSteps(s4, begin, end, r5);
    TwoSteps(s5, begin, end, last);
    TwoSteps(s6, Swap(b), UnlinkTemp(b), []);
    assert last + [] == last;
    NoStepsLeft(Step(Step(s6, Swap(b)), UnlinkTemp(b)));
  }

  lemma NoStepsLeft(s: State)
    ensures RunFrom(s, []) == s
  {
  }

  // ----- what a reader gets -----

  /** A reader resolves whatever the manifest names if its chunks are there, and else stays with what it had. */
  lemma ResolvesExactly(s: State, r: nat)
    requires r in s.readers
    ensures var s' := Step(s, Resolve(r));
            && r in s'.readers && s' == s.(readers := s.readers[r := s'.readers[r]])
            && s'.readers[r].cache == s.readers[r].cache && s'.readers[r].vectorCache == s.readers[r].vectorCache
            && s'.readers[r].resolved ==
               if && s.manifest.Some?
                  && s.manifest.value.generation in s.generations
                  && s.generations[s.manifest.value.generation].chunks != Absent
               then s.manifest else s.readers[r].resolved
  {
  }

  /** The rows and vectors of the generation that `m` names are what reader `r` has at hand. */
  ghost predicate HasAtHand(s: State, r: nat, m: Metadata) {
    && r in s.readers && m.generation in s.generations && s.readers[r].resolved == Some(m)
    && m.generation in s.readers[r].cache
    && var g, got := s.generations[m.generation], s.readers[r].cache[m.generation];
       && g.chunks == Whole(got.chunks) && g.lexical == Whole(got.lexical)
       && |got.chunks| == |got.lexical| == m.chunkCount
       && (m.dimension.Some? ==>
             && m.generation in s.readers[r].vectorCache
             && s.readers[r].vectorCache[m.generation] == Matrix(m.chunkCount, m.dimension.value))
  }

  /**
   In every run, once something is published, a reader that resolves and loads has exactly what the manifest names.
   */
  lemma ReadersSeeTheManifest(events: seq<Event>, r: nat)
    requires r in Run(EMPTY, events).readers && Run(EMPTY, events).manifest.Some?
    ensures var s := Run(EMPTY, events);
            HasAtHand(Step(Step(Step(s, Resolve(r)), Load(r)), LoadVectors(r)), r, s.manifest.value)
  {
    ManifestIsAlwaysComplete(events);
    CachesEqualFreshLoads(events, r);
    var s := Run(EMPTY, events);
    hide Run;
    ResolvesExactly(s, r);
  }

  // ----- a build that fails -----

  /** What the removal of a directory does, file by file. */
  function RollbackSteps(b: nat): seq<Event> {
    [Raise(b), RemoveFile(b, Chunks), RemoveFile(b, Lexical), RemoveFile(b, Vectors), RemoveFile(b, Meta), RemoveDir(b)]
  }

  /** An exception before the swap leaves no trace: the directory and the temporary file are gone, and nothing else. */
  lemma FailedBuildLeavesNothing(s: State, b: nat)
    requires b in s.builders && s.builders[b].plan.name in s.generations
    requires s.builders[b].pc.Writing? || s.builders[b].pc == Replacing
    ensures var s' := RunFrom(s, RollbackSteps(b));
            && s'.generations == s.generations - {s.builders[b].plan.name}
            && s'.temps == s.temps - {b}
            && s'.manifest == s.manifest && s'.readers == s.readers
            && s'.builders == s.builders[b := Builder(s.builders[b].plan, Stopped)]
  {
    var name := s.builders[b].plan.name;
    var s1 := Step(s, Raise(b));
    var s5 := RemovingAll(s1, b);
    var s6 := Step(s5, RemoveDir(b));
    assert s6.generations == s.generations - {name};
    hide Step, RunFrom;
    var removals := [RemoveFile(b, Chunks), RemoveFile(b, Lexical), RemoveFile(b, Vectors), RemoveFile(b, Meta)];
    assert RollbackSteps(b) == [Raise(b)] + (removals + [RemoveDir(b)]);
    OneStep(s, Raise(b), removals + [RemoveDir(b)]);
    RunFromSplits(s1, removals, [RemoveDir(b)]);
    OneStep(s5, RemoveDir(b), []);
    NoStepsLeft(s6);
    assert [RemoveDir(b)] + [] == [RemoveDir(b)];
  }

  lemma OneStep(s: State, e: Event, rest: seq<Event>)
    ensures RunFrom(s, [e] + rest) == RunFrom(Step(s, e), rest)
  {
    assert ([e] + rest)[1..] == rest;
  }

  lemma {:induction false} RunFromSplits(s: State, first: seq<Event>, rest: seq<Event>)
    ensures RunFrom(s, first + rest) == RunFrom(RunFrom(s, first), rest)
    decreases |first|
  {
    hide Step;
    if first == [] {
      assert first + rest == rest;
    } else {
      RunFromSplits(Step(s, first[0]), first[1..], rest);
      assert first + rest == [first[0]] + (first[1..] + rest);
      OneStep(s, first[0], first[1..] + rest);
    }
  }

  lemma RemovesOne(s: State, b: nat, stage: Stage)
    requires BuilderAt(s, b, RollingBack) && s.builders[b].plan.name in s.generations
    ensures var name := s.builders[b].plan.name;
            Step(s, RemoveFile(b, stage)) ==
              s.(generations := s.generations[name := WithoutFile(s.generations[name], stage)])
  {
  }

  /** All four files go, and nothing else. */
  lemma RemovingAll(s: State, b: nat) returns (s': State)
    requires BuilderAt(s, b, RollingBack) && s.builders[b].plan.name in s.generations
    ensures s' == s.(generations := s.generations[s.builders[b].plan.name := NEW_GENERATION])
    ensures s' == RunFrom(s, [RemoveFile(b, Chunks), RemoveFile(b, Lexical), RemoveFile(b, Vectors),
                              RemoveFile(b, Meta)])
  {
    RemovesOne(s, b, Chunks);
    var s1 := Step(s, RemoveFile(b, Chunks));
    RemovesOne(s1, b, Lexical);
    var s2 := Step(s1, RemoveFile(b, Lexical));
    RemovesOne(s2, b, Vectors);
    var s3 := Step(s2, RemoveFile(b, Vectors));
    RemovesOne(s3, b, Meta);
    s' := Step(s3, RemoveFile(b, Meta));
    hide Step;
    TwoSteps(s, RemoveFile(b, Chunks), RemoveFile(b, Lexical), [RemoveFile(b, Vectors), RemoveFile(b, Meta)]);
    TwoSteps(s2, RemoveFile(b, Vectors), RemoveFile(b, Meta), []);
    NoStepsLeft(s');
    hide RunFrom;
    assert [RemoveFile(b, Vectors), RemoveFile(b, Meta)] + [] == [RemoveFile(b, Vectors), RemoveFile(b, Meta)];
    assert [RemoveFile(b, Chunks), RemoveFile(b, Lexical)] + [RemoveFile(b, Vectors), RemoveFile(b, Meta)]
        == [RemoveFile(b, Chunks), RemoveFile(b, Lexical), RemoveFile(b, Vectors), RemoveFile(b, Meta)];
  }

  // ----- rolling back -----

  /**
   Rolling a generation back is safe exactly while the manifest does not name it. The code rolls back on
   exceptions before the swap only because nothing after the swap raises.
   */
  lemma RollbackIsSafeExactly(s: State, name: string)
    requires Inv(s) && name in s.generations
    ensures (forall stage :: ActiveComplete(WithGeneration(s, name, WithoutFile(s.generations[name], stage)))) <==>
            !(s.manifest.Some? && s.manifest.value.generation == name)
  {
    hide BuilderInv, ReaderInv;
    if s.manifest.Some? && s.manifest.value.generation == name {
      var s' := WithGeneration(s, name, WithoutFile(s.generations[name], Chunks));
      assert !ActiveComplete(s');
    }
  }

  /** What an exception after the swap would do. */
  lemma RaisingAfterSwapWouldBreak(s: State, b: nat)
    requires Inv(s) && BuilderAt(s, b, Replacing)
    ensures var s1 := Swapped(s, b);
            var name := s.builders[b].plan.name;
            && ActiveComplete(s1) && name in s1.generations
            && !ActiveComplete(WithGeneration(s1, name, WithoutFile(s1.generations[name], Chunks)))
  {
    SwapKeepsInv(s, b);
    assert BuilderInv(s, b);
    hide ReaderInv, WrittenSoFar;
    RollbackIsSafeExactly(Swapped(s, b), s.builders[b].plan.name);
  }

}
