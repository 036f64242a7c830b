/**
 How the two builds of `engram_apply` relate. They share every helper and
 the guard; they differ in what the guard's failure returns and in what a
 participating layer returns.
 */
module Builds {
  import opened Engram
  import EngramComplete
  import EngramSimple

  /** On a usable context and a non-participating layer both builds pass
      the hidden states through. */
  lemma AgreeOffLayer(add: AddOp, ctx: Ptr<Context>, ctx0: Ptr<GraphContext>,
                      hidden: Ptr<Tensor>, inputIds: Ptr<Tensor>, layer: int)
    requires Usable(ctx, ctx0) && layer !in ctx.deref.cfg.layerIds
    ensures EngramComplete.Apply(add, ctx, ctx0, hidden, inputIds, layer) == hidden
    ensures EngramSimple.Apply(ctx, ctx0, hidden, inputIds, layer) == hidden
  {
  }

  /** When the guard fails the complete build returns the hidden states and
      the pass-through build returns null, so they differ on every non-null
      hidden-state tensor. */
  lemma DisagreeOnGuard(add: AddOp, ctx: Ptr<Context>, ctx0: Ptr<GraphContext>,
                        hidden: Ptr<Tensor>, inputIds: Ptr<Tensor>, layer: int)
    requires !Usable(ctx, ctx0)
    ensures EngramComplete.Apply(add, ctx, ctx0, hidden, inputIds, layer) == hidden
    ensures EngramSimple.Apply(ctx, ctx0, hidden, inputIds, layer) == Null
    ensures hidden != Null ==>
      EngramComplete.Apply(add, ctx, ctx0, hidden, inputIds, layer)
      != EngramSimple.Apply(ctx, ctx0, hidden, inputIds, layer)
  {
  }

  /** On a participating layer the builds agree exactly when the residual
      add of the placeholder pipeline gives back the hidden states. */
  lemma AgreeOnLayerIffAddIsIdentity(add: AddOp, ctx: Ptr<Context>, ctx0: Ptr<GraphContext>,
                                     hidden: Ptr<Tensor>, inputIds: Ptr<Tensor>, layer: int)
    requires Usable(ctx, ctx0) && layer in ctx.deref.cfg.layerIds
    ensures EngramComplete.Apply(add, ctx, ctx0, hidden, inputIds, layer)
            == EngramSimple.Apply(ctx, ctx0, hidden, inputIds, layer)
        <==> add(ctx0.deref, hidden, EngramComplete.ContextGating(add, ctx0.deref, hidden, inputIds)) == hidden
  {
  }

  /** A context fresh from `engram_init`, used with a graph context: the
      pass-through build always returns the hidden states, and the complete
      build does so for every layer outside the configuration. */
  lemma ApplyAfterInit(add: AddOp, cfg: Config, ctx0: Ptr<GraphContext>,
                       hidden: Ptr<Tensor>, inputIds: Ptr<Tensor>, layer: int)
    requires ctx0.Ref?
    ensures EngramSimple.Apply(Init(cfg), ctx0, hidden, inputIds, layer) == hidden
    ensures layer !in cfg.layerIds ==>
      EngramComplete.Apply(add, Init(cfg), ctx0, hidden, inputIds, layer) == hidden
  {
    InitIsUsable(cfg, ctx0, layer);
  }
}
