/**
 `engram_apply` of the complete build. Its n-gram, gating and convolution
 stages are placeholders: the n-gram stage returns the token ids, the gate
 adds them to the hidden states (or passes the hidden states through when
 either is missing), and the convolution returns its input. An unusable
 context or a non-participating layer returns the hidden states.
 */
module EngramComplete {
  import opened Engram

  /** `compute_ngram_hashes`: the token-id tensor stands in for the features. */
  function NgramHashes(inputIds: Ptr<Tensor>): (features: Ptr<Tensor>)
    ensures features == inputIds
  {
    inputIds
  }

  /** `apply_context_gating`: a no-op gate when either input is missing,
      otherwise the host's elementwise add of the two. */
  function ContextGating(add: AddOp, ctx0: GraphContext, hidden: Ptr<Tensor>, features: Ptr<Tensor>): (gated: Ptr<Tensor>)
    ensures hidden == Null || features == Null ==> gated == hidden
    ensures hidden != Null && features != Null ==> gated == add(ctx0, hidden, features)
  {
    if hidden == Null || features == Null then hidden
    else add(ctx0, hidden, features)
  }

  /** `apply_short_conv`: the gated features are returned unchanged. */
  function ShortConv(gated: Ptr<Tensor>): (convolved: Ptr<Tensor>)
    ensures convolved == gated
  {
    gated
  }

  /** `engram_apply` (complete build). */
  function Apply(add: AddOp, ctx: Ptr<Context>, ctx0: Ptr<GraphContext>,
                 hidden: Ptr<Tensor>, inputIds: Ptr<Tensor>, layer: int): (r: Ptr<Tensor>)
    ensures !Usable(ctx, ctx0) ==> r == hidden
    ensures Usable(ctx, ctx0) && layer !in ctx.deref.cfg.layerIds ==> r == hidden
    ensures Usable(ctx, ctx0) && layer in ctx.deref.cfg.layerIds ==>
      r == add(ctx0.deref, hidden,
               if hidden.Ref? && inputIds.Ref? then add(ctx0.deref, hidden, inputIds) else hidden)
  {
    if !Usable(ctx, ctx0) then hidden
    else if !Participates(ctx.deref, layer) then hidden
    else
      var features := NgramHashes(inputIds);
      var gated := ContextGating(add, ctx0.deref, hidden, features);
      var convolved := ShortConv(gated);
      add(ctx0.deref, hidden, convolved)
  }

  /** The placeholder stages leave the pipeline equal to one gate followed
      by the residual add: the n-gram and convolution stages are identities,
      and a missing input makes the gate a no-op. */
  lemma PipelineCollapses(add: AddOp, ctx0: GraphContext, hidden: Ptr<Tensor>, inputIds: Ptr<Tensor>)
    ensures ShortConv(ContextGating(add, ctx0, hidden, NgramHashes(inputIds)))
            == ContextGating(add, ctx0, hidden, inputIds)
    ensures hidden == Null || inputIds == Null ==> ContextGating(add, ctx0, hidden, inputIds) == hidden
  {
  }
}
