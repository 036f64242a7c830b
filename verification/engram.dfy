/**
 The Engram configuration and runtime context records, their lifecycle
 (`engram_init`, `engram_free`), and the checks shared by both builds of
 `engram_apply`.

 Tensors and the ggml graph context belong to the host runtime and are
 opaque here; a C pointer that may be null is a `Ptr`.
 */
module Engram {
  import opened LinearScan

  /** A host tensor (`ggml_tensor`); only its identity matters to this model. */
  type Tensor(==)

  /** The host's graph-building context (`ggml_context`). */
  type GraphContext

  /** A possibly-null C pointer. */
  datatype Ptr<T> = Null | Ref(deref: T)

  /** ggml's elementwise add, `ggml_add(ctx0, a, b)`: otherwise uninterpreted,
      but a pure, total function of its arguments, so it neither allocates a
      fresh node per call nor fails on a null argument. */
  type AddOp = (GraphContext, Ptr<Tensor>, Ptr<Tensor>) -> Ptr<Tensor>

  /** `engram_config`. The C pair `layer_ids` / `n_layer_ids` is one sequence,
      an immutable value rather than an array borrowed from the caller. */
  datatype Config = Config(
    maxNgramSize: int,
    nEmbedPerNgram: int,
    nHeadPerNgram: int,
    layerIds: seq<int>,
    padId: int,
    seed: int,
    kernelSize: int)

  /** `engram_context`: the stored configuration and the initialised flag. */
  datatype Context = Context(cfg: Config, initialized: bool)

  /** `engram_init`: a context holding the configuration verbatim, marked initialised. */
  function Init(cfg: Config): (ctx: Ptr<Context>)
    ensures ctx.Ref?
    ensures ctx.deref.cfg == cfg
    ensures ctx.deref.initialized
  {
    Ref(Context(cfg, true))
  }

  /** `engram_free`: whether `delete` runs. A null handle releases nothing. */
  function Free(ctx: Ptr<Context>): (released: bool)
    ensures released <==> ctx != Null
  {
    match ctx
    case Null => false
    case Ref(_) => true
  }

  /** The guard at the top of both `engram_apply` builds: a non-null,
      initialised context and a non-null graph context. */
  predicate Usable(ctx: Ptr<Context>, ctx0: Ptr<GraphContext>): (ok: bool)
    ensures ctx == Null ==> !ok
    ensures ctx0 == Null ==> !ok
    ensures ctx != Null && !ctx.deref.initialized ==> !ok
    ensures ok ==> ctx.Ref? && ctx.deref.initialized && ctx0.Ref?
  {
    ctx.Ref? && ctx.deref.initialized && ctx0.Ref?
  }

  /** The layer scan over `layer_ids[0 .. n_layer_ids)`; it decides membership. */
  function Participates(ctx: Context, layer: int): (b: bool)
    ensures b <==> layer in ctx.cfg.layerIds
  {
    Contains(ctx.cfg.layerIds, layer)
  }

  /** A freshly initialised context passes the guard whenever the graph
      context is present, and its participating layers are exactly the
      configured ones. */
  lemma InitIsUsable(cfg: Config, ctx0: Ptr<GraphContext>, layer: int)
    requires ctx0.Ref?
    ensures Usable(Init(cfg), ctx0)
    ensures Participates(Init(cfg).deref, layer) <==> layer in cfg.layerIds
  {
  }

  /** Freeing what `engram_init` returned releases it. */
  lemma FreeAfterInitReleases(cfg: Config)
    ensures Free(Init(cfg))
  {
  }
}
