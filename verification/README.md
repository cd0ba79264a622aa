# Verification of the go-heif service core

A Dafny 4.11 model of the parts of the service that hold state or do arithmetic:
the per-IP token-bucket rate limiter, the conversion worker pool with its retry
loop, the fixed-point image scaler, the closed-form quality estimate, the
concurrency limiter and the pooled byte buffers.  `dafny verify dfyconfig.toml`
checks everything.

## How it is organised

| files | what they hold |
|---|---|
| TokenBucket, AdmissionLaw, LimiterTraces | the limiter as a transition system, the law of what it admits, whole traces with many IPs and cleanup passes |
| RateLimiter | the limiter as an object with a map of bucket objects, changed in place exactly as the transition system says |
| PoolProtocol, PoolTheorems | the worker pool as a labelled step system over all interleavings: one inductive invariant, then the theorems about every run |
| WorkerPool, Retry | the pool as an object whose methods take those steps, with `Start`, `Submit` and `Stop` as whole calls composed of them; the retry loop over `Submit` |
| SlotProtocol, ConcurrencyLimiter | the concurrency limiter, with the semaphore and the counter moving in separate steps; the object that takes the steps |
| Sampling, Planes, ColorConversion, Scaler, Validation | fixed-point indices; strided planes; colour arithmetic; the loops over arrays; the size limits |
| RealArithmetic, Quality | the Newton root and the quality estimate over the reals |
| Bytes, Wrappers | the byte type and optional values |
| BufferPool, BufferSession | slices, their memory and their owners on the heap; any use of the pool against plain byte strings |

## Abstractions

* `float64` is `real`; NaN and rounding are not modelled.  Time is a `real` number of
  seconds passed as a parameter; the limiter's mutex makes each call one step.  `int` is unbounded; where the scaler could overflow,
  `Scaler.AcceptedSafe` shows that it does not on accepted images.
* Decoding and encoding are unknown: a worker applies an arbitrary function to the
  conversion call it has chosen, the same function for equal calls.
* Go's choice between ready `select` cases, `sync.Pool` forgetting its contents and the
  capacity that `append` picks are parameters, so that the theorems hold for all of them.
* A send on the closed job channel is modelled as what it is, a panic of the submitter
  (`SendClosed`); it is not excluded by a precondition.
* `image.NewYCbCr`, whose source is in Go's library, is the constructor of
  `Scaler.YCbCr`; its three planes are separate arrays.

## What turned out not to hold as stated

* `Allow` lets the first request of an IP through even when the burst size is zero or
  negative.  The law is therefore exact from the second request on, and for whole
  traces exactly when `burst >= 1` (`LawIffBurst`).
* Forgetting idle IPs changes no answer exactly when `1 <= burst <= 300 * rate`
  (`EvictionLaw`); otherwise `EvictionShows` gives a trace on which it does.
* A denied request takes no token, but it renews the time by which its bucket counts as
  idle.  It changes no other answer exactly when `1 <= burst <= 300 * rate`
  (`DeniedFreeLaw`); otherwise it can keep alive a drained bucket that a cleanup pass
  would have replaced by a full one (`DeniedShows`, by numbers `DeniedCosts`).
* The logged and exported `active` count can exceed the limit by any amount
  (`Overshoot`), because a request gives its slot back before it is subtracted.
* `SubmitWithRetry` calls its waits exponential; they grow linearly and add up to
  `5 n (n + 1)` ms.  With `maxRetries <= 0` it returns neither an image nor an error.
* `GetBuffer` promises at least the requested capacity; that holds exactly up to 10 MB.
* A fixed-point sample can lie one column before the true nearest neighbour
  (`OneOff`); `SampleAgainstIdeal` says exactly when.
* Destinations of odd width or height keep zeros in their last chroma column or row
  (`ChromaCompleteIff`).
* The comment in the generic scaler speaks of the centre of a 2x2 block; the code
  takes its top left pixel.  The bounds of a non-YCbCr image are not added to the
  coordinates; `GenericReadsInsideIff` says for which origins and sizes all reads still
  lie inside, and `GenericReadsOutside` is an accepted image on which they do not.
* A YCbCr source is read as 4:2:0 whatever its subsampling.  With even sizes the chroma of
  every cell drawn belongs to its luma exactly for 4:2:0 sources (`ChromaBelongsIff`).
  With odd sizes it drifts: `ChromaDrift` bounds by how much, and `OddSizesDrift` is an
  image on which it is five columns.
* The estimate does not always invert its size model to a point.  `EstimateInvertsModel`
  says for every image and target when it does: below 3 megapixels, for fractions under
  one tenth, it depends on two powers of the fraction; above 20 megapixels, from one on, on
  the percentages cut to integers.  `SmallImagesAccurate` covers all images up to 702331
  pixels and `FirstInaccurate` is the next one; `TwoPointsOffSmall` and
  `TwoPointsOffAtSeam` are accepted images on which it is two points off.
* Over arbitrary real ratios, which images and integer targets do not all produce, the four
  steps are within a point below one exactly from 3 megapixels on (`WithinOneIff`), and the
  shortcut from one on agrees with the true root exactly up to 20 megapixels (`SeamIff`).

## Model

| member | source | states |
|---|---|---|
| AdmissionLaw.ExactLaw | internal/middleware/ratelimit.go:45-79 | from its second request on, an IP is admitted if and only if, for every earlier request i, the admitted ones since i plus this one fit under burst + rate * (elapsed since i); any rate, burst and order of times |
| AdmissionLaw.TokensMinPlus | internal/middleware/ratelimit.go:61-76 | the token count a request finds is the minimum, attained, over all windows ending there of burst + refill - admissions |
| AdmissionLaw.LawIffBurst | internal/middleware/ratelimit.go:52-59 | that law decides every request of every nonempty trace if and only if burst >= 1 |
| AdmissionLaw.WindowBound | internal/middleware/ratelimit.go:61-79 | no run of consecutive requests admits more than burst + rate * elapsed |
| AdmissionLaw.IntervalBound | internal/middleware/ratelimit.go:61-79 | no time interval admits more than burst + rate * length |
| AdmissionLaw.GreedyOptimal | internal/middleware/ratelimit.go:61-79 | the limiter respects all window bounds and admits, on every prefix, at least as many requests as any decisions that do |
| LimiterTraces.Isolation | internal/middleware/ratelimit.go:45-79 | the answers to an IP in an interleaved trace are those of its own requests run alone |
| LimiterTraces.DeniedFreeLaw | internal/middleware/ratelimit.go:45-96 | on traces in time order with cleanup passes anywhere, leaving out any denied requests never changes the reply to another event if and only if 1 <= burst <= 300 * rate |
| LimiterTraces.DropsAreFree | internal/middleware/ratelimit.go:61-95 | under that condition, any choice of denied requests and cleanup passes together can be left out of a trace without changing the reply to any event left in |
| LimiterTraces.DeniedShows | internal/middleware/ratelimit.go:61-91 | when the condition fails, a trace and a denied request in it whose omission changes a later reply |
| LimiterTraces.DeniedCosts | internal/middleware/ratelimit.go:61-91 | at rate 0 and burst 1, a denied request after 200 s makes the one after 302 s be denied as well, which without it passes |
| LimiterTraces.DeniedRequestsAreFree | internal/middleware/ratelimit.go:61-79 | on a trace of requests alone, for every configuration and order of times, leaving out any denied requests keeps all other answers |
| LimiterTraces.EvictionLaw | internal/middleware/ratelimit.go:82-96 | cleanup passes at arbitrary times change no answer on any trace in time order if and only if 1 <= burst <= 300 * rate |
| LimiterTraces.EvictionInvisible | internal/middleware/ratelimit.go:49-95 | under that condition, answers with and without cleanup passes are equal |
| LimiterTraces.EvictionShows | internal/middleware/ratelimit.go:49-95 | when the condition fails, a trace on which a cleanup pass changes an answer |
| LimiterTraces.LimiterObeysLaw | internal/middleware/ratelimit.go:45-96 | the whole limiter, IPs interleaved and cleanup anywhere, answers each IP by the law on that IP's own times |
| RateLimiting.RateLimiter.constructor | internal/middleware/ratelimit.go:30-42 | a new limiter knows no IP |
| RateLimiting.RateLimiter.Allow | internal/middleware/ratelimit.go:45-79 | the answer and the whole new table are those of the transition system; other buckets are untouched |
| RateLimiting.RateLimiter.Cleanup | internal/middleware/ratelimit.go:86-95 | exactly the entries idle for more than 300 s go; all that stay were seen within that time |
| RateLimiting.RateLimiter.Replay | internal/middleware/ratelimit.go:45-96 | the object's answers on any list of requests and passes are the outcomes of the transition system |
| PoolProtocol.InitInv | internal/converter/pool.go:39-44 | the new pool satisfies the invariant |
| PoolProtocol.StepInv | internal/converter/pool.go:47-144 | every atomic step of submitters, workers, Start and Stop keeps the invariant |
| PoolTheorems.ExactlyOnce | internal/converter/pool.go:58-113 | in every reachable state an accepted job is in exactly one place: queued, with one worker, or delivered once; a job not accepted is nowhere; nothing is ever dropped |
| PoolProtocol.DispatchCarries | internal/converter/pool.go:61-71 | a worker's call is the one and only call that has the job's data, has a scale, the job's, exactly when that lies strictly between 0 and 1, and has a quality, the job's, exactly when that is positive |
| PoolTheorems.OwnResult | internal/converter/pool.go:60-108 | a submitter receives only what such a call makes of the data, scale and quality it submitted itself |
| PoolTheorems.SendNeverDrops | internal/converter/pool.go:74-78 | the result channel is empty when the worker sends, so the default branch is unreachable, cancelled submitters included |
| PoolTheorems.FirstComeFirstServed | internal/converter/pool.go:60-101 | jobs are begun in the order of acceptance, each at most once |
| PoolTheorems.Backpressure | internal/converter/pool.go:39-60 | unfinished jobs are exactly the queued and the held ones, at most 3 * workers |
| PoolTheorems.ReturnReasons | internal/converter/pool.go:98-112 | Submit returns ErrPoolBusy only with exactly 2 * workers jobs queued, its context not done and the pool open; the context's error only when the context is done; it panics only on a closed pool |
| PoolTheorems.CancelledCanReturn | internal/converter/pool.go:98-108 | once its context is done a submitter at either select can return at any moment, and never as busy |
| PoolTheorems.SubmitNeverBlocks | internal/converter/pool.go:98-112 | the outer select always has a step to take |
| PoolTheorems.RefusedStaysOut | internal/converter/pool.go:98-112 | a submission refused as busy never gets into the queue, a worker or a channel |
| PoolTheorems.RetriesEnqueueOnce | internal/converter/pool.go:98-134 | in any run, of the calls made by one retrying caller all but the last end as busy and are in no queue, worker or channel |
| PoolTheorems.NoLostJob | internal/converter/pool.go:58-108 | a waiting submitter has its result ready or some worker can take a step |
| PoolTheorems.BegunSoon | internal/converter/pool.go:58-60 | under every schedule a job at queue position p is begun within 2 p + busy + 1 <= 5 * workers worker steps, and until then some worker can take one |
| PoolTheorems.AheadFalls | internal/converter/pool.go:58-80 | while a job is queued, 2 * position + busy workers falls by one at each worker step and stays at every other step |
| PoolTheorems.StopDrains | internal/converter/pool.go:140-144 | when Stop has returned, the queue is empty and for every accepted job the conversion of its own data, scale and quality is in its channel or with its submitter |
| PoolTheorems.StopTerminates | internal/converter/pool.go:140-144 | after close at most 6 * workers worker steps remain, and when none is possible Stop can return with everything delivered |
| PoolTheorems.WorkFalls | internal/converter/pool.go:57-80 | after close, 2 * queued + busy + remaining workers falls by one at each worker step and stays otherwise |
| PoolTheorems.StopNeverStuck | internal/converter/pool.go:140-144 | while Stop waits some worker can take a step |
| WorkerPools.WorkerPool.constructor | internal/converter/pool.go:39-44 | a new pool is the initial state |
| WorkerPools.WorkerPool.Start | internal/converter/pool.go:47-55 | the loop takes steps of the protocol, changes nothing but the workers, and leaves one idle worker per slot, all counted in the wait group; a later call changes nothing, one that arrives during the first returns after it |
| WorkerPools.WorkerPool.Submit | internal/converter/pool.go:84-113 | a whole call, with other parties moving before its outer select and after its send, is a run of the protocol; from the pool that the outer select finds, it returns busy if and only if the queue is full, the channel open and the context not over; it returns the conversion of its own job or, with a context that ends, the context's error; it panics only on a closed channel |
| WorkerPools.WorkerPool.Stop | internal/converter/pool.go:140-144 | a whole call, with other parties moving once the channel is closed, is a run of the protocol with at most 6 * workers worker steps, after which the queue is empty and every accepted job has its result; a second call panics |
| WorkerPools.WorkerPool.WorkerStep | internal/converter/pool.go:58-80 | whichever worker moves, it takes one of its protocol steps |
| WorkerPools.WorkerPool.TakeStep | internal/converter/pool.go:47-144 | the object's methods take every step that the protocol has |
| WorkerPools.WorkerPool.Interlude | internal/converter/pool.go:47-144 | of a list of other parties' moves, exactly those that can be taken one after the other are |
| WorkerPools.WorkerPool.Offer | internal/converter/pool.go:98-112 | the outer select takes one of its four protocol steps, and which: the busy one if and only if queue full, context not done, channel open |
| WorkerPools.WorkerPool.Await | internal/converter/pool.go:103-108 | the inner select takes one of its two protocol steps |
| WorkerPools.WorkerPool.Receive | internal/converter/pool.go:60 | the worker's receive takes the oldest job, or ends on a closed empty channel |
| WorkerPools.WorkerPool.Process | internal/converter/pool.go:61-78 | the worker's step leaves in the job's channel exactly one result, that of the call with the job's data and just the scale and quality the job has |
| WorkerPools.WorkerPool.FinishStop | internal/converter/pool.go:140-144 | when the wait is over every accepted job has had its result sent |
| Retry.SubmitWithRetry | internal/converter/pool.go:116-137 | a run of the pool, other parties moving in the pauses as well: of the calls it makes for its job all but the last are refused as busy and never in the queue; the last one decides the reply: the image or the error of this job's own conversion if it got that, the context's error if the context ended in the call or in the pause after a refusal, ErrPoolBusy if all allowed calls were refused and no pause interrupted, none exactly if it panicked; the pauses add up to 5 n (n + 1) ms; neither image nor error for maxRetries <= 0 |
| SlotProtocol.StepInv | internal/middleware/concurrency.go:28-52 | every step keeps: semaphore length = requests holding a slot <= max, active = requests counted and not yet subtracted |
| SlotProtocol.LimiterBounds | internal/middleware/concurrency.go:28-72 | running handlers <= semaphore length <= max, and 0 <= active <= max + requests between receive and decrement |
| SlotProtocol.NeverBlocks | internal/middleware/concurrency.go:28-52 | Release never blocks; a request is turned away only when all slots are taken |
| SlotProtocol.NothingLeaks | internal/middleware/concurrency.go:59-72 | semaphore and counter are back to zero at quiescence, however the handlers ended |
| SlotProtocol.Overshoot | internal/middleware/concurrency.go:43-49 | for every max > 0 and every k a run reaches active = max + k |
| SlotProtocol.ActiveBoundedIff | internal/middleware/concurrency.go:28-52 | active <= max is an invariant if and only if max = 0 |
| ConcurrencyLimiting.ConcurrencyLimiter.TryTake | internal/middleware/concurrency.go:29-39 | succeeds if and only if a slot is free, and takes the protocol step |
| ConcurrencyLimiting.ConcurrencyLimiter.CountUp | internal/middleware/concurrency.go:31-36 | the count shown is between 1 and max + requests on their way out |
| ConcurrencyLimiting.ConcurrencyLimiter.GiveBack | internal/middleware/concurrency.go:45 | the receive finds an element and takes the protocol step |
| ConcurrencyLimiting.ConcurrencyLimiter.CountDown | internal/middleware/concurrency.go:46-51 | the count shown is never negative |
| Sampling.SampleInside | internal/converter/converter.go:295-305 | every sampled index lies in the source |
| Sampling.SampleAgainstIdeal | internal/converter/converter.go:295-305 | the fixed-point index is the floor of x * src / dst or one less, and exactly when |
| Sampling.ExactWhenDividing | internal/converter/converter.go:295-305 | no error when dst divides src << 16 |
| Sampling.SampleStep | internal/converter/converter.go:303-305 | consecutive indices differ by the integer part of the ratio or one more |
| Sampling.NeverRepeatsIff | internal/converter/converter.go:267-305 | no source column is read twice if and only if src >= dst |
| Sampling.NeverSkips | internal/converter/converter.go:270-305 | enlarging skips no column before the last one sampled |
| Sampling.Registration | internal/converter/converter.go:312-328 | with even sizes the chroma ratio equals the luma ratio and a chroma index is half the luma index of the even cell |
| Sampling.ChromaDrift | internal/converter/converter.go:295-325 | for all sizes the chroma index is at most one below half the luma index of the even cell and at most 1 + (dst + (dst mod 2) * ratio) / 2^17 above it, which is 1 for an even destination |
| Scaler.YCbCr.constructor | internal/converter/converter.go:279 | a new 4:2:0 image: tight strides, chroma sizes rounded up, zero samples |
| Scaler.ScaleLuma | internal/converter/converter.go:295-307 | all accesses in bounds, each luma cell is the sample at its fixed-point index, nothing else is written |
| Scaler.ScaleChroma | internal/converter/converter.go:312-329 | the same for both chroma planes |
| Scaler.ScaleYCbCrNearest | internal/converter/converter.go:294-330 | all three planes are scaled, exactly the w x h luma and (w/2) x (h/2) chroma cells are written, the source is unchanged |
| Scaler.NearestNeighbour | internal/converter/converter.go:298-307 | every luma cell shows the source sample in the ideal row and column or in the one before |
| Scaler.ChromaUnderLuma | internal/converter/converter.go:309-329 | with even sizes every chroma cell is the source chroma sample at half the row and column of the luma sample shown at the top left of its block |
| Scaler.ChromaBelongsIff | internal/converter/converter.go:309-329 | for even sizes, every chroma cell drawn is read at the chroma sample belonging to the luma sample its block shows if and only if the source is 4:2:0 |
| Scaler.ChromaNearLuma | internal/converter/converter.go:298-329 | for all sizes, odd ones as well, every chroma cell shows a source sample at most one row and column before the one belonging to its luma and at most the drift after it |
| Scaler.OddSizesDrift | internal/converter/converter.go:298-329 | a 4:2:0 source of 999 columns scaled to 101 takes chroma column 489 under luma whose own is 484, so that the drift bound of 5 is attained |
| Scaler.ChromaCompleteIff | internal/converter/converter.go:314-329 | a new image has its chroma written everywhere if and only if both sizes are even |
| Scaler.ScaleGenericNearest | internal/converter/converter.go:334-391 | luma of every cell and chroma of every block are the conversions of the pixels at the fixed-point indices, nothing else is written |
| Scaler.GenericNearest | internal/converter/converter.go:346-369 | in a converted image every luma cell is within 0.51 of 0.299 r + 0.587 g + 0.114 b of the pixel whose row and column are the ideal nearest neighbour's or the one before, each on its own axis |
| Scaler.GenericBlock | internal/converter/converter.go:372-390 | the Cb and Cr of a 2x2 block are within 1.02 of the formulas for the very pixel whose luma its top left cell shows |
| Scaler.GenericReadsInsideIff | internal/converter/converter.go:347-377 | every pixel asked for lies inside the image if and only if on both axes it starts at or before the origin and reaches past the last index sampled; always so at the origin |
| Scaler.GenericReadsOutside | internal/converter/converter.go:267-352 | an accepted image of sixteen columns starting at -1, at any scale below one, is read one past its last column |
| Scaler.ScaleImage | internal/converter/converter.go:246-291 | returned as it is exactly for scale >= 1 or a zero width or height; otherwise a fresh scaled image, each size the product with the scale cut to an integer, or 100 where the product is less |
| Scaler.DestSizeExact | internal/converter/converter.go:267-276 | a destination size is 100 if the product is below 100 and the truncated product otherwise, for every scale |
| Scaler.DestSizeBounds | internal/converter/converter.go:267-276 | below scale one a destination size never exceeds a source of 100 or more |
| Scaler.SizesAtFifth | internal/converter/converter.go:267-276 | 640 x 480 at scale 0.2 becomes 128 x 100 |
| Scaler.AcceptedSafe | internal/converter/validation.go:43-78 | on accepted images no index product reaches 2^31 and the scaled image stays within 250 megapixels |
| ColorConversion.NoWrap | internal/converter/converter.go:362-388 | the conversions to uint8 never wrap: each result is the fixed-point value of the pixel's upper bytes itself |
| ColorConversion.GreyFixed | internal/converter/converter.go:354-388 | grey of level v becomes (v, 128, 128) |
| ColorConversion.Accuracy | internal/converter/converter.go:354-388 | luma is the T.871 formula rounded to nearest, chroma rounded down, within the coefficients' precision |
| Validation.ValidateImage | internal/converter/validation.go:43-78 | which sizes are accepted, and which error otherwise |
| Quality.Sqrt | pkg/quality/adaptive.go:61-74 | the loop is four Newton steps from 1 |
| Quality.EstimateQualitySinglePass | pkg/quality/adaptive.go:23-58 | the code computes the estimate the theorems speak of |
| Quality.NewtonErrorIdentity | pkg/quality/adaptive.go:68-73 | for x = s * s below 1: (z - s) (1 + s)^16 = (z + s) (1 - s)^16 and s <= z <= 1 |
| Quality.LessThanOnePoint | pkg/quality/adaptive.go:46-73 | for s >= 1/10, 100 z exceeds 100 s by less than one point |
| Quality.WithinOneIff | pkg/quality/adaptive.go:46-73 | over arbitrary real ratios below one, the quality from the four steps is that of the true root or one more for all of them if and only if the image has at least 3 megapixels |
| Quality.TinyIff | pkg/quality/adaptive.go:46-73 | below 3 megapixels and for s below one tenth it is so exactly when (c + s) (1 - s)^16 < (c - s) (1 + s)^16, for c the first percentage two points up |
| Quality.AccurateMidRange | pkg/quality/adaptive.go:46-73 | from 3 to 20 megapixels, where nothing is tuned, the quality is the percentage cut to an integer and clamped to 10..100, or one more, for every positive ratio |
| Quality.FinishIsIntended | pkg/quality/adaptive.go:46-57 | multiplying, tuning, truncating and clamping give the percentage minus 5 above 20 megapixels, plus 5 below 3, itself in between, cut to an integer within 10..100 |
| Quality.EstimateInvertsModel | pkg/quality/adaptive.go:29-57 | for every image and positive target, the estimate is that quality for the solution s of the size model bytes = pixels * s^2 * 0.18, or one point more, if and only if `Accurate` holds of pixels and s |
| Quality.EstimateExactIff | pkg/quality/adaptive.go:29-73 | for every image and positive target, the estimate is that quality itself if and only if `Exact` holds of pixels and s: two powers of s decide below one, the percentages cut to integers from one on |
| Quality.MidRangeExactly | pkg/quality/adaptive.go:29-57 | from 3 to 20 megapixels the estimate is the clamped integer percentage of s if `Exact` holds, and one more if not |
| Quality.OrdinaryPhoto | pkg/quality/adaptive.go:34-57 | 3200 x 3200 pixels with target 450 KB get 50 |
| Quality.SmallImagesAccurate | pkg/quality/adaptive.go:34-57 | up to 702331 pixels that is so for every positive target |
| Quality.FirstInaccurate | pkg/quality/adaptive.go:34-57 | at 702332 pixels, an accepted 284 x 2473, and 1 KB the estimate is 15 and the model's solution gives 13 |
| Quality.TwoPointsOffSmall | pkg/quality/adaptive.go:34-57 | an accepted image of 2 megapixels with target 1 KB gets 12 where the model's solution gives 10 |
| Quality.EstimateAtSeam | pkg/quality/adaptive.go:43-67 | for targets from the quality-100 size on, exactly when the estimate is the model's solution itself |
| Quality.TwoPointsOffAtSeam | pkg/quality/adaptive.go:43-67 | an accepted image of 128 megapixels with target 23409 KB gets 99 where the model's solution gives 97 |
| Quality.SeamIff | pkg/quality/adaptive.go:65-67 | over arbitrary real ratios from one on, returning the ratio itself gives the true root's quality for all of them if and only if the image has at most 20 megapixels |
| Quality.RootMonotone | pkg/quality/adaptive.go:61-74 | the root is monotone over all reals, across both seams |
| Quality.MonotoneInTarget | pkg/quality/adaptive.go:34-57 | a larger target never lowers the quality |
| Quality.MonotoneInPixels | pkg/quality/adaptive.go:43-57 | more pixels never raise the quality, across the 3 and 20 megapixel steps |
| BufferPooling.ClassOf | internal/converter/bufferpool.go:45-56 | the capacity covers the request if and only if it is at most 10 MB, and is 10 MB for every larger one |
| BufferPooling.ClassIsLeast | internal/converter/bufferpool.go:16-56 | the classes are 64 KB, 512 KB, 5 MB and 10 MB, and no sufficient one is smaller than the one chosen |
| BufferPooling.BufferPool.GetBuffer | internal/converter/bufferpool.go:45-56 | an empty slice of its class capacity that nobody else owns; taken out of the pool if and only if the runtime has kept one of that class, new otherwise |
| BufferPooling.BufferPool.PutBuffer | internal/converter/bufferpool.go:59-76 | the slice is emptied and pooled if and only if its capacity is that of a class |
| BufferPooling.BufferPool.NewPooledBuffer | internal/converter/bufferpool.go:101-105 | a new empty buffer with a slice of its own |
| BufferPooling.BufferPool.Append | internal/converter/bufferpool.go:113-115 | the contents grow by the data, in place if and only if they fit the capacity; no other buffer changes |
| BufferPooling.BufferPool.Reset | internal/converter/bufferpool.go:118-120 | the contents are empty; no other buffer changes |
| BufferPooling.BufferPool.Release | internal/converter/bufferpool.go:133-136 | the buffer gives up its slice, which is pooled if and only if its capacity is that of a class; no other buffer changes |
| BufferPooling.BufferPool.ToBytes | internal/converter/bufferpool.go:139-144 | the contents in fresh memory outside the pool; the buffer gives up its slice |
| BufferSessions.ServeAll | internal/converter/bufferpool.go:45-144 | after any legal operations all returned slices and all buffers in use are those of a program with plain byte strings |

## Left out

- HTTP handlers, multipart parsing, headers, configuration, metrics and logging: plumbing with facts of one branch.
- HEIF decoding, JPEG and WebP encoding, and pkg/jpeg/turbo.go: foreign code, here an unknown function.
- SubmitToGlobalPool and InitGlobalWorkerPool: a global instance of the pool and the same four-way choice without it.
- A panic inside a conversion ends the process in Go and has no step here; a second Stop closes a closed channel, which is not a step of the protocol, and `WorkerPools.WorkerPool.Stop` reports it as a panic.
- WorkerPools.WorkerPool.Submit: the other parties' moves are finite lists, before the outer select and after the send; once those are used up only workers move until the call returns. Any other interleaving is a run of the step system.
- WorkerPools.WorkerPool.Start: the object's loop is one caller's view; that other parties move between two spawns is in the step system, where Spawn is a step of its own.
- Retry.SubmitWithRetry: each attempt and each pause has its own surroundings, so that a context which is over in one attempt may be alive in the next; the theorems hold for these as well.
- Quality.EstimateQualitySinglePass: needs a positive size, which validation guarantees; for zero area the Go code divides by zero and converts an infinity or NaN to int, which is implementation-defined, and so is the conversion of a huge float, unbounded here.
- Scaler.YCbCr: images whose origin is (0, 0), at 4:4:4, 4:2:2, 4:4:0 or 4:2:0; the quarter-width ratios 4:1:1 and 4:1:0, whose chroma rows are shorter than the loop assumes, are not part of this model.
- Scaler.ScaleImage: the recovery from panics, which cannot happen on well-formed images.
- BufferPooling.BufferPool.PutBuffer: needs a slice that is not in the pool; Go accepts one that is and pools it twice, after which two callers may get the same memory.
- GetBufferWriter and PutBufferWriter: the latter does nothing.
- PooledBuffer.Bytes: hands out the slice itself; a caller that keeps it past Release is outside the model.
- BufferSessions.ServeAll: a buffer used or released again after it was given up dereferences nil in Go; such sequences are not legal operations.
- EstimateOutputSize, SafeDecode, GetImageInfo, IsHEIFMagic, ValidateFile: one-step or placeholder code.
