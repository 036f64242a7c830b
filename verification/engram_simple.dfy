/**
 `engram_apply` of the pass-through build. An unusable context returns null
 instead of the hidden states; for a usable context both the participating
 and the non-participating branch return the hidden states.
 */
module EngramSimple {
  import opened Engram

  /** `engram_apply` (pass-through build). */
  function Apply(ctx: Ptr<Context>, ctx0: Ptr<GraphContext>,
                 hidden: Ptr<Tensor>, inputIds: Ptr<Tensor>, layer: int): (r: Ptr<Tensor>)
    ensures !Usable(ctx, ctx0) ==> r == Null
    ensures Usable(ctx, ctx0) ==> r == hidden
  {
    if !Usable(ctx, ctx0) then Null
    else if !Participates(ctx.deref, layer) then hidden
    else hidden
  }
}
