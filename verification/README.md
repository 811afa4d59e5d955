# Octo display and pattern synthesis, modelled in Dafny

This project models the two pieces of logic in Octo's `js/shared.js` that sit
between the CHIP-8/XO-CHIP emulator and the browser:

- the **display renderer**: two bit planes give each cell a palette index
  `p0[z] + 2*p1[z]`. `getColor` turns that index into one of four colours.
  `renderDisplay` draws cell `z` as a square at column `z % stride`, row
  `z / stride` of a 64×32 (low resolution) or 128×64 (high resolution) grid
  on a canvas that `setRenderTarget` sizes to `scale*128` × `scale*64`;
- the **pattern synthesizer** of `playPattern`: a 7-byte buffer is decoded
  into a base frequency, attack/decay/hold/release lengths, a sustain level and
  a waveform selector. An attack/decay/hold/release envelope multiplies a
  periodic wave, and the product is resampled by zero-order hold from the
  internal 4000 Hz rate to the audio device's rate.

Modules follow those components: `Display` (display.dfy), `Params`
(params.dfy), `Envelopes` (envelope.dfy), `Waveforms` (waveform.dfy),
`Resampling` (resample.dfy) and `Synth` (pattern.dfy), which puts them
together as `playPattern` does.

Arithmetic is exact: integers are unbounded and every real is a rational.
JavaScript's floating-point `%`, `/` and `|0` are modelled as follows:

- `t % samplesPerPeriod` for `t ≥ 0` is `t - m*floor(t/m)`;
- `(i / resampleRatio)|0` is the integer quotient `(i*4000) / deviceRate`.
  `Resampling.SourceIndexIsFloor` proves that this quotient is the floor of the
  real quotient.

Drawing and playback are modelled as data. Rendering returns the list of
rectangle fills in drawing order, including the fills already issued when
`getColor` throws. Synthesis returns the sample sequence that
would go into the audio buffer. The host services the wave shapes call,
`Math.sin` and `Math.random`, are the two function fields of
`Waveforms.Host`. The audio device's sample rate and the buffer length
chosen by `createBuffer` are parameters.

## Model

| member | source | states |
|---|---|---|
| Display.SetRenderTarget | js/shared.js:26-31 | the canvas of scale factor `scale` is `scale*128` wide and `scale*64` high. `GridFillsTarget` and `RectWithinTarget` state what the grid does with it |
| Display.CellOf | js/shared.js:56-61 | cell `z` is drawn at column `z % stride` and row `floor(z / stride)`. `IndexOfCellOf`, `CellOfIndexOf` and `CellOfInGrid` make this a bijection onto the grid |
| Display.CellRect | js/shared.js:52-61 | the square of cell `z` has its corner at column × size, row × size and side `size`, where `size` is `scale` in high resolution and `scale*2` in low. `RectsDisjoint`, `RectsCoverTarget` and `RectWithinTarget` are stated on it |
| Display.Stride | js/shared.js:53 | `stride` is 128 cells in high resolution and 64 in low resolution. `GridFillsTarget` states that the columns span the canvas width |
| Display.Rows | js/shared.js:52-53 | the grid has `max / stride` rows: 64 in high resolution and 32 in low. `GridFillsTarget` states that the rows span the canvas height |
| Display.CellCount | js/shared.js:52 | `max` is 128·64 cells in high resolution and 64·32 in low. `GridFillsTarget` states that it is stride × rows |
| Display.CellSize | js/shared.js:54 | `size` is `scaleFactor` in high resolution and `scaleFactor*2` in low. `GridFillsTarget` states that this makes both grids fill the same canvas |
| Display.ColorIndex | js/shared.js:57 | the palette index of a cell is `p[0][z] + p[1][z]*2`, with plane 0 as the low bit. `ColorIndexOfBits` states its range and that it can be decoded |
| Display.CellFill | js/shared.js:57-62 | the `fillStyle`/`fillRect` pair for one cell: the cell's palette colour over its square `CellRect`. `RenderDisplay` states that every cell drawn gets exactly this fill |
| Display.GetColor | js/shared.js:36-44 | index 0, 1, 2 and 3 give the back, fill, fill2 and blend colour; any other index fails with `InvalidColor(id)`. It succeeds exactly on 0..3 |
| Display.ColorIndexOfBits | js/shared.js:57 | for plane bits in {0,1}, `p0 + 2*p1` lies in 0..3, and the two bits can be read back from it (low bit is plane 0) |
| Display.BitPlanesAllValid | js/shared.js:56-57 | if both planes hold only bits, every cell's palette index is valid, so `getColor` never throws during a render |
| Display.RenderDisplay | js/shared.js:46-64 | rendering finishes without error exactly when every cell's index is in 0..3. The fills always start with a full-canvas fill in the argument's background colour `back`. One fill per cell follows in row-major order, each with the cell's square and the colour `getColor` picks from the palette `pal` of the global emulator. Without an error there is a fill for every cell. On an error the fills stop just before the first cell with an invalid index, `z`, and the error carries that cell's invalid palette index `p0[z] + 2*p1[z]` |
| Display.GridFillsTarget | js/shared.js:52-54 | in both modes, columns × cell size equals the canvas width `scale*128` and rows × cell size equals the height `scale*64`; low resolution doubles the cell size. `max` is stride × rows |
| Display.CellOfInGrid | js/shared.js:56-60 | every `z < max` maps to a column below `stride` and a row below `max/stride` |
| Display.IndexOfCellOf | js/shared.js:59-60 | `row*stride + col` recovers `z` from its cell, so the cell map loses nothing |
| Display.CellOfIndexOf | js/shared.js:59-60 | every grid cell has an index below `max` whose cell is that one. With `IndexOfCellOf` this makes the cell map a bijection between [0, max) and the grid |
| Display.CellOfInjective | js/shared.js:56-62 | two indices drawn at the same cell are equal |
| Display.CellOfOnto | js/shared.js:56-62 | every grid cell is drawn by some `z < max` |
| Display.ContainsIff | js/shared.js:58-62 | a pixel lies in cell `z`'s square exactly when its coordinates divided by the cell size are that cell's column and row |
| Display.RectsDisjoint | js/shared.js:56-63 | the squares of two different cells share no pixel, so fill order does not matter |
| Display.RectsCoverTarget | js/shared.js:50-63 | every pixel of the canvas lies in the square of some cell below `max`, so the cells cover the canvas with no gap |
| Display.RectWithinTarget | js/shared.js:58-62 | each cell's square lies inside the canvas that `setRenderTarget` sized to `scale*128` × `scale*64` |
| Params.Decode | js/shared.js:97-103 | the base frequency is `16*b0`, so it is positive exactly when byte 0 is. Attack, decay, hold and release are `4*b1`, `4*b2`, `4*b3` and `4*b5`. The sustain level is `b4/255`, a `Level` in [0,1]. The envelope length is at most 4·4·255. The waveform is `soundBank[b6 % 5]` |
| Params.SampleCount | js/shared.js:141 | `sampleCount` is the sum of the four phase lengths. `SampleCountOfBuffer` and `Envelopes.SilentAfterEnd` state what it bounds |
| Params.DecodeEncode | js/shared.js:97-103 | every pattern made of byte-scaled quantities decodes from the canonical buffer built from it |
| Params.EncodeDecode | js/shared.js:97-103 | decoding keeps bytes 0..5 exactly and reduces the selector mod 5; nothing else is lost |
| Params.SelectorWraps | js/shared.js:137-139 | buffers equal in bytes 0..5 whose selectors agree mod 5 decode to the same pattern, so selector 5 plays like selector 0 |
| Params.SampleCountOfBuffer | js/shared.js:141 | `sampleCount = 4*(b1+b2+b3+b5)`, which is at most 4080 |
| Envelopes.Lerp | js/shared.js:120 | `lerp(a, b, perc) = a*(1-perc) + b*perc`. `LerpForm`, `LerpBetween` and `LerpDown` state its shape |
| Envelopes.Envelope | js/shared.js:119-129 | for `t ≥ 0` it is defined, because no zero divisor is reached, and it lies in [0,1] |
| Envelopes.LerpBetween | js/shared.js:120-127 | for `b <= a` and `perc` in [0,1], `lerp(a, b, perc)` lies in [b, a]. Both calls in `envelope`, `lerp(1, sustain, …)` and `lerp(sustain, 0, …)`, fall this way |
| Envelopes.AttackRises | js/shared.js:121 | the attack starts at 0, rises strictly, and reaches level `t/attack` at time `t` |
| Envelopes.DecayFromOne | js/shared.js:122-123 | the decay starts at 1; `k` samples into it the level is `1 - (1 - sustain)*k/decay` |
| Envelopes.HoldIsSustain | js/shared.js:124-125 | throughout the hold phase the envelope is exactly the sustain level |
| Envelopes.ReleaseFromSustain | js/shared.js:126-127 | the release starts at the sustain level; `k` samples into it the level is `sustain*(1 - k/release)` |
| Envelopes.SilentAfterEnd | js/shared.js:128 | for `t ≥ attack+decay+hold+release` the envelope is 0 |
| Envelopes.PastDecayAtMostSustain | js/shared.js:124-128 | from the start of the hold phase on, the envelope never exceeds the sustain level |
| Envelopes.NonIncreasingAfterAttack | js/shared.js:122-128 | after the attack the envelope is non-increasing: `attack ≤ t1 ≤ t2` implies `env(t2) ≤ env(t1)` |
| Waveforms.SamplesPerPeriod | js/shared.js:112-113 | `samplesPerPeriod = SAMPLERATE / baseFreq` is positive for a positive base frequency, so the `%` and `/` below it are defined |
| Waveforms.Rem | js/shared.js:115 | `t % m` lies in [0, m) and differs from `t` by a whole number of periods `m` |
| Waveforms.Phase | js/shared.js:112-116 | for a positive base frequency and `t ≥ 0`, the phase passed to the shape lies in [0,1) |
| Waveforms.PhaseOfByte | js/shared.js:97-115 | with `baseFreq = 16*b0` the phase of integer sample `t` is exactly `((t*b0) mod 250)/250` |
| Waveforms.PhasePeriodic | js/shared.js:112-116 | shifting `t` by `samplesPerPeriod` leaves the phase unchanged |
| Waveforms.SawShape | js/shared.js:131 | `sawTooth(x) = x`. `SawFollowsPhase` states its range and order |
| Waveforms.SquareShape | js/shared.js:132 | `square(x)` is 1 below 0.5 and 0 from 0.5 on. `SquareHalves` states the resulting wave |
| Waveforms.TriangleShape | js/shared.js:133 | `triangle(x)` is `2x` below 0.5 and `2 - 2x` from 0.5 on. `TriangleSymmetric` states its symmetry and peak |
| Waveforms.Shape | js/shared.js:131-137 | `soundBank` selects saw, square, triangle, sine or noise. Sine and noise take their values from the host's `Math.sin` and `Math.random` |
| Waveforms.Periodize | js/shared.js:115 | a shape value `v` becomes `v*2 - 1`, which lies in [-1,1] exactly when `v` lies in [0,1] |
| Waveforms.Sample | js/shared.js:112-139 | the wave sample at `t` is the selected shape at phase `(t % samplesPerPeriod) / samplesPerPeriod`, rescaled by `periodize`. `SampleBounded` and `SamplePeriodic` are stated on it |
| Waveforms.ShapeInUnit | js/shared.js:131-133 | saw, square and triangle map a phase in [0,1) into [0,1] |
| Waveforms.SampleBounded | js/shared.js:112-139 | every periodized saw, square or triangle sample lies in [-1,1], and so does noise when the host's draw lies in [0,1) |
| Waveforms.SquareHalves | js/shared.js:132 | the square wave is +1 exactly when the phase is below 0.5 and -1 exactly when it is not |
| Waveforms.TriangleSymmetric | js/shared.js:133 | the triangle is symmetric about phase 0.5, where it peaks at 1 |
| Waveforms.SawFollowsPhase | js/shared.js:131 | the saw sample lies in [-1,1) and is strictly ordered like the phase |
| Waveforms.SineRescaled | js/shared.js:134 | `sine` goes through the same `*2 - 1`: a sine value in [-1,1] gives a sample in [-3,1], and a trough gives -3 |
| Waveforms.SamplePeriodic | js/shared.js:112-117 | every wave except noise repeats after 250 internal samples |
| Resampling.SourceIndex | js/shared.js:149 | the source index `t` of output sample `i` is the largest whole number with `t*deviceRate <= i*4000`, that is `(i / resampleRatio)|0` for a non-negative quotient |
| Resampling.CoverLength | js/shared.js:143-144 | `ceil(sampleCount * resampleRatio)`. This ceiling belongs to the model, not the source: the source passes the unrounded product to `createBuffer`. It is used to say which output samples read inside the envelope |
| Resampling.SourceIndexIsFloor | js/shared.js:143-149 | the integer quotient `(i*4000)/deviceRate` equals the floor of `i / resampleRatio` |
| Resampling.SourceIndexMonotone | js/shared.js:149 | source indices never decrease as the output index grows |
| Resampling.SourceIndexBelowCount | js/shared.js:141-149 | output sample `i` reads a source index below `sampleCount` exactly when `i < ceil(sampleCount * resampleRatio)` |
| Resampling.SourceIndexAtInternalRate | js/shared.js:143-149 | at a device rate of 4000 the source index is the output index |
| Resampling.UpsamplingReadsEverySource | js/shared.js:147-155 | at a device rate of 4000 or more, every source sample below `sampleCount` is read by some output sample of the covering length |
| Resampling.ZeroOrderHold | js/shared.js:147-155 | the nested loop terminates and fills all `length` samples. Sample `i` is the generator's value at `SourceIndex(i)`, which is the reference definition `Held` |
| Resampling.HeldAtInternalRate | js/shared.js:143-155 | at a device rate of 4000 the held output is `generator(i)` sample for sample |
| Synth.Generator | js/shared.js:105-139 | `generator(t) = envelope(t) * periodize(shape)(t)`, the `multiply` of the envelope and the selected wave. `GeneratorBounded` and `GeneratorSilentAfterEnd` are stated on it |
| Synth.GeneratorBounded | js/shared.js:139 | `envelope(t) * wave(t)` lies in [-1,1] for saw, square, triangle and noise with a draw in [0,1) |
| Synth.GeneratorSilentAfterEnd | js/shared.js:128-141 | at or past `sampleCount` the generator is 0 for every wave |
| Synth.FullSustainHoldIsRawWave | js/shared.js:101-125 | at sustain byte 255 the hold phase passes the raw wave through unchanged |
| Synth.PlayPattern | js/shared.js:91-155 | the output has the buffer's length. Sample `i` is the generator at `SourceIndex(i)`, so at 4000 Hz it is `generator(i)`. Samples past the covering length are 0, and every sample is 0 when bytes 1, 2, 3 and 5 are all 0. A unit wave's samples lie in [-1,1] |
| Synth.ZeroLengthsAreSilent | js/shared.js:101-141 | a pattern whose four length bytes are 0 covers no output sample, and its generator is 0 at every sample for every wave |

## Left out

- DOM and canvas calls: `document.getElementById`, `getContext`, `setTransform`, `fillRect` and the style margins of `setRenderTarget`. These are host I/O, so fills are returned as data.
- `unpackOptions` (js/shared.js:12-24): it copies configuration from one object to another and holds no logic. The palette is a parameter instead. `renderDisplay` reads its background colour from its argument, and `getColor` reads the global `emulator`, so the model takes these as two separate parameters, `back` and `pal`.
- Web Audio: `audioSetup`, the `if (!audio) return` guard, stopping the previous `soundSource`, `createBuffer`, `createBufferSource` and `start` (js/shared.js:72-95, 144-145, 158-162). These are device calls that play audio asynchronously. The device rate and the buffer length are parameters. The device rate is taken to be a whole number of Hz. Web Audio's `sampleRate` is a float, and for a fractional rate `(i*4000)/deviceRate` would not be `(i / resampleRatio)|0`. What `createBuffer` does with a pattern whose length is 0 is up to Web Audio; the model only shows that every sample of such a pattern is 0.
- Resampling.ZeroOrderHold: the source's inner `do-while` tests only the source index and relies on the typed array to drop writes past its end. The model stops the inner loop at the buffer's length, which writes the same samples.
- `sine` values: `Math.sin` is transcendental, so the sine shape is the host function `Host.sinTurn`. No [-1,1] bound is claimed for the sine wave, because the source rescales it to [-3,1].
- `noise` values: `Math.random()` is nondeterministic. The model takes the draw for sample `t` from the host function `Host.random`. Bounds are claimed only when that draw lies in [0,1).
- Zero base frequency: the source has no guard, and `SAMPLERATE / baseFreq` becomes Infinity. The source does not fail then: `t % Infinity` is `t` and `t / Infinity` is 0, so every sample is at phase 0, a constant −1 for saw, triangle and sine and +1 for square, scaled by the envelope. Noise does not depend on the phase. The synthesizer requires byte 0 to be positive, because exact reals have no Infinity. This input is left out on purpose.
- Floating-point rounding of `t / attack`, `i / resampleRatio`, `t % samplesPerPeriod` and the other divisions. The model uses exact rationals and integer division. The 32-bit wrap of `|0` never applies, because source indices stay below 2^31.
- The canvas scale factor is modelled as a natural number. A fractional `scaleFactor` would give fractional rectangles, which the model does not cover.
- Planes are required to be at least `max` cells long. This is what the emulator always supplies. A shorter plane would read `undefined` and fail in `getColor`.
