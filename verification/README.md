# Engram helpers and layer dispatch, modelled in Dafny

The Engram extension for llama.cpp is meant to inject n-gram features into
selected transformer layers. As written, its n-gram hashing, context gating
and short convolution are placeholders; the logic that exists is three
integer helpers (`is_prime`, `find_next_prime`, `simple_hash`), the context
lifecycle (`engram_init`, `engram_free`) and the layer dispatch of
`engram_apply`. Two source files define the same C entry points and are
alternative builds: `llama-engram-complete.cpp` (placeholder pipeline) and
`llama-engram.cpp` (pure pass-through).

Modules:

- `Arith`: divisibility lemmas over `%` and `/`.
- `LinearScan`: the early-exit membership scan both builds write out for the
  list of seen primes and for the configured layer ids.
- `Primes`: `is_prime` as 6k +/- 1 trial division proved equal to "greater
  than one with no divisor in [2, n)"; `find_next_prime` proved to return
  the least prime at or above `start` missing from the seen list; Euclid's
  argument that such a prime always exists. The Euclid lemma only shows
  that the search would end on unbounded integers; no member models that
  unbounded search, and `FindNextPrime` itself runs under a 32-bit bound.
- `Hash`: `simple_hash` with C's truncating `%` written out.
- `Engram`: the `engram_config` / `engram_context` records, `engram_init`,
  `engram_free`, the shared guard and the layer-membership test. Tensors and
  the ggml graph context are opaque types; `ggml_add` is a function
  parameter, modelled as a pure, total function of its arguments.
- `EngramComplete`, `EngramSimple`: `engram_apply` of each build.
- `Builds`: how the two `engram_apply` builds agree and differ.

`is_prime`, `find_next_prime`, `simple_hash`, `engram_init` and
`engram_free` are textually identical in the two builds
(`llama-engram.cpp:18-79` and `llama-engram-complete.cpp:18-79`), so each is
defined once and serves both builds.

`engram_init` performs no validation of the configuration. The
pass-through build returns null, not the hidden states, when its guard
fails (`llama-engram.cpp:90-92`).

## Model

| member | source | states |
|---|---|---|
| Primes.IsPrimeTrial | llama.cpp/src/llama-engram-complete.cpp:18-30 | 6k +/- 1 trial division returns true exactly when n > 1 and no d in [2, n) divides n; so false for n <= 1 and true for 2 and 3 |
| Primes.WheelStep | llama.cpp/src/llama-engram-complete.cpp:24-28 | loop invariant step: with i = 5 (mod 6), n odd and not a multiple of 3, testing i and i + 2 extends "no divisor in [2, i)" to [2, i + 6) |
| Primes.NoSmallDivisor | llama.cpp/src/llama-engram-complete.cpp:24-29 | when the loop exits with i * i > n and no divisor below i, n is prime |
| Primes.SquareStaysInRange | llama.cpp/src/llama-engram-complete.cpp:24 | for inputs up to 46337^2 - 1 the next square i * i the loop computes still fits in a 32-bit int |
| Primes.FindNextPrime | llama.cpp/src/llama-engram-complete.cpp:32-51 | returns r >= start, r prime, r not in the seen list, and every c in [start, r) is not prime or already seen |
| Primes.AdmissiblePrimeExists | llama.cpp/src/llama-engram-complete.cpp:35-50 | for every start and seen list some prime >= start is missing from the list, so the unbounded upward search ends |
| LinearScan.ScanFrom | llama.cpp/src/llama-engram-complete.cpp:39-44 | the early-exit scan from index i reports found exactly when x occurs in xs[i..] |
| LinearScan.Contains | llama.cpp/src/llama-engram-complete.cpp:38-44 | the scan over the whole list reports found exactly when x is in the list |
| Hash.TruncatedRem | llama.cpp/src/llama-engram-complete.cpp:57 | C's `%` by a positive m: a result strictly between -m and m, with the sign of the dividend, congruent to it modulo m |
| Hash.SimpleHash | llama.cpp/src/llama-engram-complete.cpp:53-58 | the hash is congruent to a * 10007 + b modulo 1000000007, lies in (-1000000007, 1000000007), takes the sign of the sum, and lies in [0, 1000000007) for non-negative a and b |
| Hash.HashIsResidue | llama.cpp/src/llama-engram-complete.cpp:54-58 | on a non-negative sum the hash equals the mathematical residue (a * 10007 + b) mod 1000000007 |
| Engram.Init | llama.cpp/src/llama-engram-complete.cpp:61-72 | the returned context is non-null, stores the configuration verbatim and is initialised |
| Engram.Free | llama.cpp/src/llama-engram-complete.cpp:75-79 | the context is released exactly when the handle is non-null; a null handle is a no-op |
| Engram.Participates | llama.cpp/src/llama-engram.cpp:94-101 | the scan over layer_ids[0 .. n_layer_ids) is true exactly when the layer is among the configured ids |
| Engram.InitIsUsable | llama.cpp/src/llama-engram.cpp:61-72 | a context from init passes the apply guard whenever the graph context is non-null (its layer clause is a consequence of `Participates`' own contract, restated for init) |
| Engram.FreeAfterInitReleases | llama.cpp/src/llama-engram.cpp:75-79 | freeing what init returned releases it; a one-step consequence of the contracts of `Init` and `Free` |
| Engram.Usable | llama.cpp/src/llama-engram-complete.cpp:156 | the guard shared by both builds (also llama-engram.cpp:90) fails for a null context, an uninitialised context or a null graph context, and passing it guarantees all three are present |
| EngramComplete.NgramHashes | llama.cpp/src/llama-engram-complete.cpp:82-100 | the placeholder n-gram stage returns the token-id tensor as the features (combined with the other stages in `PipelineCollapses`) |
| EngramComplete.ContextGating | llama.cpp/src/llama-engram-complete.cpp:103-126 | with a null hidden-state or feature tensor the gate returns the hidden states; otherwise it returns the host add of the two |
| EngramComplete.ShortConv | llama.cpp/src/llama-engram-complete.cpp:129-145 | the placeholder convolution returns the gated features unchanged (combined with the other stages in `PipelineCollapses`) |
| EngramComplete.Apply | llama.cpp/src/llama-engram-complete.cpp:148-187 | unusable context or non-participating layer: the hidden states unchanged; participating layer: add(h, gate) with gate = add(h, ids) when both are non-null and h otherwise |
| EngramComplete.PipelineCollapses | llama.cpp/src/llama-engram-complete.cpp:82-145 | the n-gram and convolution stages are identities, so the pipeline is one gate; a missing hidden-state or feature tensor makes the gate a no-op |
| EngramSimple.Apply | llama.cpp/src/llama-engram.cpp:82-133 | unusable context: null; usable context: exactly the hidden states, whether or not the layer participates |
| Builds.AgreeOffLayer | llama.cpp/src/llama-engram.cpp:103-105 | on a usable context and a non-participating layer both builds return the hidden states |
| Builds.DisagreeOnGuard | llama.cpp/src/llama-engram.cpp:90-92 | when the guard fails the complete build returns the hidden states and the pass-through build null, so for non-null hidden states the two results differ |
| Builds.AgreeOnLayerIffAddIsIdentity | llama.cpp/src/llama-engram-complete.cpp:175-186 | on a participating layer the builds agree exactly when the residual add of the placeholder pipeline gives back the hidden states |
| Builds.ApplyAfterInit | llama.cpp/src/llama-engram.cpp:82-133 | after init, with a graph context, the pass-through build returns the hidden states for every layer and the complete build for every unconfigured layer |

## Left out

- Primes.IsPrimeTrial: requires n <= 46337^2 - 1 = 2147117568; above that the loop's `i * i` overflows a 32-bit int (undefined in C) for primes, while composites up to INT_MAX (2147483646, for one) return false without overflow; the requires excludes those composites as well, so the excluded set is larger than the undefined one.
- Primes.FindNextPrime: requires a prime in [start, 2147117568] missing from the seen list; otherwise `candidate++` or `is_prime` overflows. The unbounded search ends on mathematical integers (Primes.AdmissiblePrimeExists).
- Hash.SimpleHash: requires that neither `a * 10007` nor `a * 10007 + b` overflows a 32-bit int; signed overflow is undefined in C.
- Engram.Init: the `nullptr` branch after `new` is not modelled; a throwing `new` never yields null, so the branch is dead.
- Engram.Free: memory release itself is not modelled, only whether `delete` runs.
- `n_layer_ids`: modelled as the length of the layer-id sequence; a negative count (an empty scan in C) is the empty sequence, and a count beyond the array's length (undefined in C) is not representable.
- `tokenizer_name_or_path` and the `llama_model` argument of `engram_apply`: never read by the code.
- ggml tensor semantics: `ggml_add` is an uninterpreted parameter; shapes and arithmetic belong to the host library.
- `ggml_add` node allocation: each call in the source allocates a fresh node in `ctx0`, so two calls with the same arguments give distinct tensors; the model's `add` is a pure function and returns the same value for the same arguments.
- `ggml_add` on null: with null hidden states on a participating layer the complete build reaches `ggml_add(ctx0, nullptr, nullptr)`, a null dereference inside ggml; the model returns whatever `add` yields for null arguments instead of a crash.
- `layer_ids` sharing: `ctx->cfg = cfg` copies the pointer, so the context borrows the caller's array and `engram_apply` reads it at call time; the model takes the ids as an immutable sequence fixed at `engram_init`.
- The n-gram hashing, embedding tables, gating and causal convolution the comments describe do not exist in the code, so nothing of them is modelled beyond the placeholders.
- The example programs (model loading, backend set-up, tokenisation, printing): host-runtime I/O with no logic of their own.
