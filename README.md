# ocrML capture core in Dafny

This project models the sequential core of the ocrML camera activity. The activity reads a
Japanese driving licence from the camera preview. Each frame goes through these steps:

1. The on-screen capture box is mapped into the unrotated sensor buffer. The mapping uses a
   cover-fit scale, a rotation swap, clamping and even snapping.
2. The YUV_420_888 frame is packed into NV21.
3. The recognised text is split into six raw lines: name+birth, the same again, address,
   issue, validity and number.
4. Each raw line goes into a bounded history of five per slot.
5. When every history is full, each of the five aligned columns is formatted into six final
   fields. Each field is then decided by a mode with a first-seen tie-break.

The preview view's aspect-fit measurement is modelled too.

Modules:

- `Wrappers`: `Option`.
- `Arith`: division helpers.
- `Orientation`: display rotation codes, the recogniser angle, the `rotateBitmap` angle
  normalisation and the `swapped` test.
- `RotationMapper`: both rectangle mappers, over `real`.
- `FrameBufferCodec`: a planar-to-NV21 packer. It reads `seq<bv8>` planes with row and pixel
  strides into an `array<bv8>`.
- `KotlinText`: `trim`, `indexOf`, `contains`, `removePrefix`, and the character classes of
  java.util.regex and Kotlin.
- `FieldExtractor`: `getInfoArrRaw` and `formatFromLines`.
- `Consensus`: `selectBest`, the history window, finalisation, and the `ScanSession` class.
  The class holds `history`, `scanningActive` and `isProcessing`.
- `AutoFit`: `onMeasure` and the `AutoFitTextureView` class.

Two facts about the code shape the contracts:

- **The forward mapper's guarantees are conditional.**
  - The code caps the 2-pixel nudge at the buffer bound, so `left < right` holds only when
    `left + 2 <= W`.
  - `right` (and the extent) is even only when `W` is even. The same holds for the vertical
    side.
  - `RotationMapper.ForwardRectBounds` states exactly that.
- **There is a single validity pattern.** The code has one validity pattern,
  `[迄まマﾏ][でﾃ]\s*有[効效]` after a date; here it is an uninterpreted finder.

## Model

| member | source | states |
|---|---|---|
| Orientation.DeviceDegrees | app/src/main/java/com/example/ocrml/CameraOcrActivity.kt:254-260 | the device angle is one of 0/90/180/270; it is 90 times the code for the four known rotation codes (`else -> 0` otherwise) |
| Orientation.KotlinRem | app/src/main/java/com/example/ocrml/CameraOcrActivity.kt:261 | Kotlin `%`: the remainder has the dividend's sign, is smaller than the divisor in magnitude, and differs from the dividend by a multiple of it |
| Orientation.ComputeRotationDegrees | app/src/main/java/com/example/ocrml/CameraOcrActivity.kt:252-262 | the angle handed to the recogniser is congruent to sensor minus device angle mod 360; for a sensor angle in [0,360) it lies in [0,360) and adding the device angle gives the sensor angle back |
| Orientation.NormalizeDegrees | app/src/main/java/com/example/ocrml/CameraOcrActivity.kt:451 | `((d % 360) + 360) % 360` is the non-negative residue of `d` mod 360, in [0,360) |
| Orientation.NormalizeDegreesIdempotent | app/src/main/java/com/example/ocrml/CameraOcrActivity.kt:450-452 | normalising twice is normalising once, and the angle from `computeRotationDegrees` is already normal, so `rotateBitmap` rotates by exactly that angle |
| Orientation.SwappedIffQuarterTurn | app/src/main/java/com/example/ocrml/CameraOcrActivity.kt:200-205 | for a known rotation and a right-angle sensor, `swapped` holds exactly when the sensor-to-display angle is a quarter turn |
| Orientation.Swapped | app/src/main/java/com/example/ocrml/CameraOcrActivity.kt:200-205 | `swapped` holds only for a known rotation code and a right-angle sensor; for those it holds exactly when an even rotation code meets a 90/270 sensor or an odd code meets a 0/180 sensor |
| RotationMapper.MapViewRectToUnrotatedBufferExact | app/src/main/java/com/example/ocrml/CameraOcrActivity.kt:267-334 | the corner loop with its min/max accumulators yields `None` exactly for a non-perpendicular rotation (the source's `require`), otherwise the forward rectangle |
| RotationMapper.ForwardRect | app/src/main/java/com/example/ocrml/CameraOcrActivity.kt:299-333 | the forward rectangle: even, non-negative left and top, right and bottom within the buffer |
| RotationMapper.UnrotatedBufferRectToViewRectExact | app/src/main/java/com/example/ocrml/CameraOcrActivity.kt:339-396 | the inverse mapper's corner loop yields `None` exactly for a non-perpendicular rotation, otherwise the view rectangle of the buffer rectangle |
| RotationMapper.InverseRect | app/src/main/java/com/example/ocrml/CameraOcrActivity.kt:380-395 | the inverse rectangle is ordered on both axes |
| RotationMapper.Scale | app/src/main/java/com/example/ocrml/CameraOcrActivity.kt:278 | the cover-fit scale is positive |
| RotationMapper.CoverFit | app/src/main/java/com/example/ocrml/CameraOcrActivity.kt:276-280 | the scaled rotated buffer covers the view on both axes and meets it exactly on one; both centring offsets are ≤ 0 |
| RotationMapper.ViewRotatedInverse | app/src/main/java/com/example/ocrml/CameraOcrActivity.kt:282-286 | `rotatedToView` (lines 365-369) and `viewToRotated` are mutually inverse on every point |
| RotationMapper.RotationInverse | app/src/main/java/com/example/ocrml/CameraOcrActivity.kt:287-297 | for ROTATION_90 and ROTATION_270, `unrotatedToRotated` (lines 354-364) and `rotatedToUnrotated` are mutually inverse on every point |
| RotationMapper.ClampBox | app/src/main/java/com/example/ocrml/CameraOcrActivity.kt:322-325 | clamping puts all four bounds in [0,W]×[0,H] and keeps an ordered box ordered |
| RotationMapper.ForwardCornerInBuffer | app/src/main/java/com/example/ocrml/CameraOcrActivity.kt:311-315 | every clamped corner, once rotated back, lies in [0,W]×[0,H] |
| RotationMapper.Bounds | app/src/main/java/com/example/ocrml/CameraOcrActivity.kt:306-320 | the accumulated box is ordered on both axes |
| RotationMapper.BoundsIsBoundingBox | app/src/main/java/com/example/ocrml/CameraOcrActivity.kt:306-320 | the accumulators hold the least box containing every corner: all corners lie inside, and each bound is attained by some corner |
| RotationMapper.BoundsOfCorners | app/src/main/java/com/example/ocrml/CameraOcrActivity.kt:371-389 | four corners of an axis-aligned rectangle, in any order, accumulate to exactly that rectangle |
| RotationMapper.RoundToIntInRange | app/src/main/java/com/example/ocrml/CameraOcrActivity.kt:327-330 | `roundToInt` of a value in [0,hi] lies in [0,hi] |
| RotationMapper.RoundToInt | app/src/main/java/com/example/ocrml/CameraOcrActivity.kt:327-330 | `roundToInt` rounds half up: the result n satisfies n <= x + 1/2 < n + 1 |
| RotationMapper.EvenDown | app/src/main/java/com/example/ocrml/CameraOcrActivity.kt:327-330 | `and 0xFFFFFFFE` gives the even value at or just below n (n itself or n - 1) |
| RotationMapper.SnapSpan | app/src/main/java/com/example/ocrml/CameraOcrActivity.kt:327-332 | one axis of the snap: the origin is even and non-negative, the far edge never passes the bound, and the far edge lies beyond the origin whenever origin + 2 fits in the bound |
| RotationMapper.RoundToIntMonotone | app/src/main/java/com/example/ocrml/CameraOcrActivity.kt:327-330 | `roundToInt` is monotone |
| RotationMapper.SnapSpanBounds | app/src/main/java/com/example/ocrml/CameraOcrActivity.kt:327-332 | one axis of the snap: `0 <= l <= r <= bound`, `l` even, `l < r` when `l + 2 <= bound`, `r` even when the bound is even |
| RotationMapper.SnapToBufferBounds | app/src/main/java/com/example/ocrml/CameraOcrActivity.kt:322-333 | the snapped rectangle lies inside the buffer with even left/top, a positive extent wherever the nudge fits, and an even right/bottom and extent on even-sized axes |
| RotationMapper.ForwardRectBounds | app/src/main/java/com/example/ocrml/CameraOcrActivity.kt:267-334 | for every view rectangle the forward result has those bounds and parity guarantees |
| RotationMapper.InverseRectBounds | app/src/main/java/com/example/ocrml/CameraOcrActivity.kt:390-395 | the inverse result lies inside the view, ordered on both axes |
| RotationMapper.ClampInactive | app/src/main/java/com/example/ocrml/CameraOcrActivity.kt:313-314 | for a point inside the view the per-corner clamp changes nothing (cover-fit maps the view into the rotated buffer) |
| RotationMapper.ForwardBoxInside | app/src/main/java/com/example/ocrml/CameraOcrActivity.kt:299-325 | for a rectangle inside the view the unsnapped forward box is the rotation of the images of its top-left and bottom-right corners |
| RotationMapper.InverseOfImage | app/src/main/java/com/example/ocrml/CameraOcrActivity.kt:354-389 | the inverse pipeline sends such a rotated box back to the view box it came from |
| RotationMapper.RealRoundTrip | app/src/main/java/com/example/ocrml/CameraOcrActivity.kt:299-394 | before rounding, mapping a rectangle inside the view forward and back gives the same rectangle exactly |
| FrameBufferCodec.Yuv420888ToNv21 | app/src/main/java/com/example/ocrml/CameraOcrActivity.kt:399-447 | the packer returns a fresh array whose contents are the NV21 image of the planes |
| FrameBufferCodec.CopyLumaPlane | app/src/main/java/com/example/ocrml/CameraOcrActivity.kt:416-428 | the luma loop writes the rows of Y samples to the front of the zeroed output and leaves the rest zero |
| FrameBufferCodec.CopyLumaRow | app/src/main/java/com/example/ocrml/CameraOcrActivity.kt:418-427 | one luma row, by either path, writes exactly that row's samples at `dst` and advances `dst` by the width |
| FrameBufferCodec.BulkCopyRow | app/src/main/java/com/example/ocrml/CameraOcrActivity.kt:419-422 | with pixel stride 1 the bulk `get` writes exactly the row's samples and nothing else |
| FrameBufferCodec.StridedCopyRow | app/src/main/java/com/example/ocrml/CameraOcrActivity.kt:423-426 | the per-pixel path writes exactly the row's strided samples and nothing else |
| FrameBufferCodec.InterleaveChromaPlane | app/src/main/java/com/example/ocrml/CameraOcrActivity.kt:435-445 | the chroma loop appends the interleaved chroma rows after the luma part and leaves the tail zero; `uvDst` ends after them |
| FrameBufferCodec.InterleaveChromaRow | app/src/main/java/com/example/ocrml/CameraOcrActivity.kt:439-444 | one chroma row writes V,U pairs of that row at `uvDst` and nothing else |
| FrameBufferCodec.Nv21 | app/src/main/java/com/example/ocrml/CameraOcrActivity.kt:402-404 | the output has length `w*h + w*h/2` |
| FrameBufferCodec.Nv21Parts | app/src/main/java/com/example/ocrml/CameraOcrActivity.kt:402-445 | the output is the `w*h` luma bytes, then `(h/2)` chroma rows of `2*(w/2)` bytes (which fit in `w*h/2`), then zeros |
| FrameBufferCodec.Nv21LumaAt | app/src/main/java/com/example/ocrml/CameraOcrActivity.kt:417-427 | `out[r*w + c]` is the Y sample at `r*rowStride + c*pixelStride` |
| FrameBufferCodec.Nv21ChromaAt | app/src/main/java/com/example/ocrml/CameraOcrActivity.kt:438-444 | with `k = r*(w/2) + c`, `out[w*h + 2k]` is the V sample and `out[w*h + 2k + 1]` the U sample at their strided indices |
| FrameBufferCodec.Nv21TailZero | app/src/main/java/com/example/ocrml/CameraOcrActivity.kt:404-445 | bytes past the last chroma pair (odd sizes) stay 0 |
| FrameBufferCodec.PaddingNeverLeaks | app/src/main/java/com/example/ocrml/CameraOcrActivity.kt:417-445 | two frames that agree on every strided sample give the same NV21 bytes, whatever their row padding holds |
| FrameBufferCodec.PackedEquivalent | app/src/main/java/com/example/ocrml/CameraOcrActivity.kt:417-445 | repacking the planes without padding (strides `w` / 1) does not change the output |
| FrameBufferCodec.RowsLength | app/src/main/java/com/example/ocrml/CameraOcrActivity.kt:416-428 | `n` luma rows make `n*cols` bytes |
| FrameBufferCodec.ChromaRowsLength | app/src/main/java/com/example/ocrml/CameraOcrActivity.kt:435-445 | `n` chroma rows make `n * 2*(w/2)` bytes |
| FrameBufferCodec.ChromaFits | app/src/main/java/com/example/ocrml/CameraOcrActivity.kt:403-437 | the chroma bytes written never exceed the `w*h/2` reserved for them |
| KotlinText.TrimStart | app/src/main/java/com/example/ocrml/CameraOcrActivity.kt:590 | drops a whitespace prefix, leaving a suffix that is empty or starts with a non-blank |
| KotlinText.TrimEnd | app/src/main/java/com/example/ocrml/CameraOcrActivity.kt:590 | drops a whitespace suffix, leaving a prefix that is empty or ends with a non-blank |
| KotlinText.Trim | app/src/main/java/com/example/ocrml/CameraOcrActivity.kt:590 | `trim()` never lengthens and leaves no blank at either end |
| KotlinText.TrimInfix | app/src/main/java/com/example/ocrml/CameraOcrActivity.kt:590 | `trim()` keeps exactly the infix between a whitespace prefix and a whitespace suffix |
| KotlinText.TrimIdempotent | app/src/main/java/com/example/ocrml/CameraOcrActivity.kt:639-640 | trimming twice is trimming once |
| KotlinText.Keep | app/src/main/java/com/example/ocrml/CameraOcrActivity.kt:652 | removing a character class leaves only characters outside it, never more than before |
| KotlinText.KeepAbsorbed | app/src/main/java/com/example/ocrml/CameraOcrActivity.kt:652 | a removal followed by a stricter one equals the stricter one alone, so dropping 第 and 号 before `\D` changes nothing |
| KotlinText.FirstFrom | app/src/main/java/com/example/ocrml/CameraOcrActivity.kt:604-613 | the leftmost position in a range satisfying a test, or none in the range does |
| KotlinText.IndexOf | app/src/main/java/com/example/ocrml/CameraOcrActivity.kt:633 | `indexOf` gives an occurrence with none before it, or none exists |
| KotlinText.ContainsIff | app/src/main/java/com/example/ocrml/CameraOcrActivity.kt:633 | `contains` holds exactly when the pattern occurs somewhere |
| KotlinText.RemovePrefix | app/src/main/java/com/example/ocrml/CameraOcrActivity.kt:643 | `removePrefix` strips the prefix when present (prefix + result = input), otherwise returns the input |
| FieldExtractor.ReplaceChar | app/src/main/java/com/example/ocrml/CameraOcrActivity.kt:588 | `replace('\u00A0', ' ')` maps that character pointwise and leaves none of it |
| FieldExtractor.CleanTextIsClean | app/src/main/java/com/example/ocrml/CameraOcrActivity.kt:587-590 | the cleaned text holds no no-break space and no bar, and has no blank at either end |
| FieldExtractor.CleanText | app/src/main/java/com/example/ocrml/CameraOcrActivity.kt:587-590 | the cleaned text is no longer than the normalised text and has no blank at either end |
| FieldExtractor.NameBirthLine | app/src/main/java/com/example/ocrml/CameraOcrActivity.kt:604-609 | the combined match wins when non-empty; otherwise the trimmed name line, a space and the trimmed birth line when both were found; otherwise "" (non-empty iff one of the two cases) |
| FieldExtractor.RawLines | app/src/main/java/com/example/ocrml/CameraOcrActivity.kt:604-614 | exactly six entries, entry 1 equal to entry 0, the rest each pattern's match or "" |
| FieldExtractor.GetInfoArrRaw | app/src/main/java/com/example/ocrml/CameraOcrActivity.kt:586-615 | six entries with slot 1 duplicating slot 0, drawn from the cleaned text |
| FieldExtractor.PreClean | app/src/main/java/com/example/ocrml/CameraOcrActivity.kt:619-624 | `preClean` is the dash-folded NFKC text with every `\s` character dropped and the rest kept in order; no `\s` character and none of the four dash characters remain |
| FieldExtractor.FoldDashes | app/src/main/java/com/example/ocrml/CameraOcrActivity.kt:620-621 | each of the four dash characters becomes '-' and every other character stays in place |
| FieldExtractor.PreCleanOfNameLine | app/src/main/java/com/example/ocrml/CameraOcrActivity.kt:619-624 | a name line `氏名 <name> <date> 生` that NFKC leaves alone, with blank-free, dash-free name and date, cleans to `氏名<name><date>生` |
| FieldExtractor.NameLabel | app/src/main/java/com/example/ocrml/CameraOcrActivity.kt:634 | `.*?氏名\s*[:：]?` matches exactly when 氏名 occurs; the match starts at the beginning of the line holding the first 氏名, and ends after the blanks that follow it, one place further when the next character is ':' or '：' |
| FieldExtractor.StripNameLabel | app/src/main/java/com/example/ocrml/CameraOcrActivity.kt:634 | without 氏名 the line is unchanged; with it, exactly the `NameLabel` match is cut out and the text on both sides is kept |
| FieldExtractor.CutEra | app/src/main/java/com/example/ocrml/CameraOcrActivity.kt:638 | with no era name whose line runs to the end, unchanged; otherwise the leftmost such era name and the rest of its line are cut |
| FieldExtractor.NameAndBirth | app/src/main/java/com/example/ocrml/CameraOcrActivity.kt:631-642 | name and birth stay "" unless line 0 holds 氏名 and a date is found; otherwise, with `body` the trimmed line after the label and `dm` the date match in it, the name is the trimmed `body[..dm.start]` with a last-line era tail cut, and the birth is the trimmed date text without 生; both come out trimmed and birth holds no 生 |
| FieldExtractor.NameAndBirthOfNameLine | app/src/main/java/com/example/ocrml/CameraOcrActivity.kt:631-642 | the cleaned line `氏名<name><date>生`, with the date found right after a trimmed, era-free name, yields exactly `(name, date)` |
| FieldExtractor.RemoveIssueMarks | app/src/main/java/com/example/ocrml/CameraOcrActivity.kt:645 | removing 交付/文付 yields a subsequence of the input, and a line without a mark is unchanged (the removal itself is `RemoveIssueMarksAtLeftmost`) |
| FieldExtractor.RemoveIssueMarksAtLeftmost | app/src/main/java/com/example/ocrml/CameraOcrActivity.kt:645 | at the leftmost mark the replace keeps everything before it, drops the two mark characters and goes on after them |
| FieldExtractor.FiveDigitCode | app/src/main/java/com/example/ocrml/CameraOcrActivity.kt:648 | the code is non-empty iff a maximal run of exactly five digits exists; it is then the leftmost such run |
| FieldExtractor.DateText | app/src/main/java/com/example/ocrml/CameraOcrActivity.kt:646-647 | the date text is "" when no date matches, otherwise the non-empty matched range of the line |
| FieldExtractor.IssueField | app/src/main/java/com/example/ocrml/CameraOcrActivity.kt:644-650 | the issue is "" iff no date; it starts with the date and continues with `(code)` exactly when both the date and the code are found |
| FieldExtractor.RemoveValidityMarks | app/src/main/java/com/example/ocrml/CameraOcrActivity.kt:651 | removing `まで[有領]?[効效]` yields a subsequence of the input, and a line without a mark is unchanged (the removal itself is `RemoveValidityMarksAtLeftmost`) |
| FieldExtractor.ValidityMarkLength | app/src/main/java/com/example/ocrml/CameraOcrActivity.kt:651 | a validity mark is 3 or 4 characters long and lies inside the line |
| FieldExtractor.RemoveValidityMarksAtLeftmost | app/src/main/java/com/example/ocrml/CameraOcrActivity.kt:651 | at the leftmost mark the replace keeps everything before it, drops the mark (4 characters when 有 or 領 precedes the 効/效, 3 otherwise) and goes on after it |
| FieldExtractor.NumberField | app/src/main/java/com/example/ocrml/CameraOcrActivity.kt:652 | the number is the ASCII digits of the line, in order |
| FieldExtractor.FormatFromLines | app/src/main/java/com/example/ocrml/CameraOcrActivity.kt:618-654 | six fields: name and birth are `NameAndBirth` of cleaned line 0 (empty unless it holds 氏名, trimmed, birth without 生); address without the 住所 prefix; the issue join; `valid` is cleaned line 4 with the validity marks removed; `no` only ASCII digits |
| FieldExtractor.NameAndBirthExample | app/src/main/java/com/example/ocrml/CameraOcrActivity.kt:618-642 | the line `氏名 山田太郎 昭和50年1月1日 生`, given that NFKC leaves it alone and the date pattern finds 昭和50年1月1日 after the name, gives name 山田太郎 and birth 昭和50年1月1日 |
| FieldExtractor.FormatIgnoresSlot1 | app/src/main/java/com/example/ocrml/CameraOcrActivity.kt:625-629 | input index 1 is never read |
| FieldExtractor.FormatPadsWithEmpty | app/src/main/java/com/example/ocrml/CameraOcrActivity.kt:625-629 | missing indices behave as "" (`getOrNull(i).orEmpty()`) |
| FieldExtractor.StripNameLabelExample | app/src/main/java/com/example/ocrml/CameraOcrActivity.kt:634 | 番号氏名：山田 loses everything through the label and colon |
| FieldExtractor.CutEraExample | app/src/main/java/com/example/ocrml/CameraOcrActivity.kt:638 | a trailing era name is cut from the name |
| FieldExtractor.FiveDigitCodeFound | app/src/main/java/com/example/ocrml/CameraOcrActivity.kt:648 | a five-digit group after the date is found |
| FieldExtractor.FiveDigitCodeAbsent | app/src/main/java/com/example/ocrml/CameraOcrActivity.kt:648 | six or four digits are not a code (the lookarounds) |
| FieldExtractor.RemoveIssueMarksOnePass | app/src/main/java/com/example/ocrml/CameraOcrActivity.kt:645 | the replace is one left-to-right pass: 交交付付 becomes 交付 |
| FieldExtractor.RemoveValidityMarksExample | app/src/main/java/com/example/ocrml/CameraOcrActivity.kt:651 | the "valid until" suffix is removed from the date |
| Consensus.Count | app/src/main/java/com/example/ocrml/CameraOcrActivity.kt:657 | an element's count never exceeds the list length |
| Consensus.CountPositive | app/src/main/java/com/example/ocrml/CameraOcrActivity.kt:657 | the count is positive exactly for the elements of the list |
| Consensus.FirstIndex | app/src/main/java/com/example/ocrml/CameraOcrActivity.kt:657 | the first occurrence: it holds the element and no earlier index does |
| Consensus.Keys | app/src/main/java/com/example/ocrml/CameraOcrActivity.kt:657 | the groups of `groupingBy` are exactly the list's elements |
| Consensus.KeysInFirstOccurrenceOrder | app/src/main/java/com/example/ocrml/CameraOcrActivity.kt:657 | the groups are ordered by first occurrence in the list |
| Consensus.FirstMaxIndex | app/src/main/java/com/example/ocrml/CameraOcrActivity.kt:657 | `maxByOrNull` picks a group of maximal count with every earlier group strictly smaller |
| Consensus.SelectBest | app/src/main/java/com/example/ocrml/CameraOcrActivity.kt:656-657 | "" for an empty list, otherwise an element of the list |
| Consensus.SelectBestIsMode | app/src/main/java/com/example/ocrml/CameraOcrActivity.kt:656-657 | no element occurs more often than the chosen one |
| Consensus.SelectBestFirstOnTie | app/src/main/java/com/example/ocrml/CameraOcrActivity.kt:656-657 | among equally frequent elements the chosen one occurs first |
| Consensus.SelectBestExample | app/src/main/java/com/example/ocrml/CameraOcrActivity.kt:656-657 | ["A","A","B","A","C"] gives "A" |
| Consensus.LastN | app/src/main/java/com/example/ocrml/CameraOcrActivity.kt:554-555 | the window of the last `n` entries has `min(|s|, n)` of them |
| Consensus.PushIsWindow | app/src/main/java/com/example/ocrml/CameraOcrActivity.kt:552-556 | a non-empty candidate leaves the last five of the old entries followed by it, at most five in all |
| Consensus.Push | app/src/main/java/com/example/ocrml/CameraOcrActivity.kt:552-556 | an empty candidate leaves the history unchanged; otherwise the candidate is the last entry, and a history of at most five stays at most five |
| Consensus.NonEmpty | app/src/main/java/com/example/ocrml/CameraOcrActivity.kt:552 | only non-empty candidates are kept |
| Consensus.PushAllIsWindow | app/src/main/java/com/example/ocrml/CameraOcrActivity.kt:550-557 | any run of ingests leaves each history as the last five non-empty candidates, in arrival order |
| Consensus.Ingested | app/src/main/java/com/example/ocrml/CameraOcrActivity.kt:550-557 | one ingest keeps six histories |
| Consensus.IngestedKeepsBound | app/src/main/java/com/example/ocrml/CameraOcrActivity.kt:554-555 | one ingest keeps every history at five entries or fewer |
| Consensus.NameSlotsStayEqual | app/src/main/java/com/example/ocrml/CameraOcrActivity.kt:550-557 | if the name and name-duplicate histories agree before an ingest of `getInfoArrRaw`, they agree after |
| Consensus.Column | app/src/main/java/com/example/ocrml/CameraOcrActivity.kt:562 | `history.map { it[i] }` takes entry i of every history, in slot order |
| Consensus.FieldColumn | app/src/main/java/com/example/ocrml/CameraOcrActivity.kt:567 | `formattedAll.map { it[col] }` takes field col of every formatted tuple |
| Consensus.BestFieldsAt | app/src/main/java/com/example/ocrml/CameraOcrActivity.kt:566-569 | field col of the result is `selectBest` of column col |
| Consensus.AllFull | app/src/main/java/com/example/ocrml/CameraOcrActivity.kt:559-562 | a full history has all five aligned columns, each with one entry per slot |
| Consensus.BestFields | app/src/main/java/com/example/ocrml/CameraOcrActivity.kt:566-569 | over a non-empty list each best field is one of the values of its column |
| Consensus.Final | app/src/main/java/com/example/ocrml/CameraOcrActivity.kt:558-569 | each final field is one of the five formatted candidates for that field |
| Consensus.FormattedColumns | app/src/main/java/com/example/ocrml/CameraOcrActivity.kt:560-565 | one formatted tuple per aligned history column |
| Consensus.FinalIsColumnMode | app/src/main/java/com/example/ocrml/CameraOcrActivity.kt:559-569 | each final field is a value of its column, occurs at least as often as any other, and on a tie occurs first |
| Consensus.FormatAll | app/src/main/java/com/example/ocrml/CameraOcrActivity.kt:560-565 | the loop formats each of the five aligned columns, in order |
| Consensus.ConsensusOf | app/src/main/java/com/example/ocrml/CameraOcrActivity.kt:559-569 | the fields computed are the per-column modes of the formatted columns |
| Consensus.EmptyHistory | app/src/main/java/com/example/ocrml/CameraOcrActivity.kt:68 | six empty histories |
| Consensus.ScanSession.constructor | app/src/main/java/com/example/ocrml/CameraOcrActivity.kt:57-69 | a new session has six empty histories, scanning on and not busy |
| Consensus.ScanSession.Ingest | app/src/main/java/com/example/ocrml/CameraOcrActivity.kt:540-583 | the histories take one ingest of `getInfoArrRaw`; a result is produced exactly when all six are full, it is the per-column consensus, and scanning stops; otherwise the scanning flag is unchanged |
| Consensus.ScanSession.IngestRawLines | app/src/main/java/com/example/ocrml/CameraOcrActivity.kt:550-582 | the same, for given raw lines |
| Consensus.ScanSession.PushRawLines | app/src/main/java/com/example/ocrml/CameraOcrActivity.kt:551-557 | the `removeAt(0)` / `add` loop performs one ingest and keeps the histories bounded with slots 0 and 1 equal |
| Consensus.ScanSession.StopScanning | app/src/main/java/com/example/ocrml/CameraOcrActivity.kt:579 | scanning stops and nothing else changes |
| Consensus.ScanSession.Rescan | app/src/main/java/com/example/ocrml/CameraOcrActivity.kt:86-92 | every history is cleared, scanning is on and the busy flag is off |
| Consensus.ScanSession.OnFrame | app/src/main/java/com/example/ocrml/CameraOcrActivity.kt:476-505 | a frame starts recognition exactly when scanning is on, nothing is in flight and the frame is usable; then the busy flag is set, otherwise nothing changes |
| Consensus.ScanSession.OnRecognitionDone | app/src/main/java/com/example/ocrml/CameraOcrActivity.kt:528-535 | completion (or the catch, or line 499 in portrait) clears the busy flag and changes nothing else |
| AutoFit.Measure | app/src/main/java/com/example/ocrml/AutoFitTextureView.kt:34-46 | with no ratio set the offered size passes through; otherwise the measured size fits inside it and matches it on one side |
| AutoFit.WidthLimitedFits | app/src/main/java/com/example/ocrml/AutoFitTextureView.kt:40-41 | in the width-limited branch the derived height does not exceed the offered height |
| AutoFit.MeasureIsLargestFit | app/src/main/java/com/example/ocrml/AutoFitTextureView.kt:40-44 | the width-limited branch is taken exactly when `width < height*rW/rH`; the other side is then the floor of the ratio-derived length |
| AutoFit.MeasureScaleInvariant | app/src/main/java/com/example/ocrml/AutoFitTextureView.kt:21-26 | ratio `(k*a, k*b)` measures the same as `(a, b)` for every k > 0 |
| AutoFit.AutoFitTextureView.constructor | app/src/main/java/com/example/ocrml/AutoFitTextureView.kt:18-19 | a new view has no ratio (both 0) |
| AutoFit.AutoFitTextureView.SetAspectRatio | app/src/main/java/com/example/ocrml/AutoFitTextureView.kt:27-32 | a non-positive side is refused with nothing changed; otherwise both are stored, so the ratio is always unset or positive |
| AutoFit.AutoFitTextureView.OnMeasure | app/src/main/java/com/example/ocrml/AutoFitTextureView.kt:34-46 | the dimensions set are `Measure` of the stored ratio and the offered size |

## Left out

- Camera2 lifecycle, permissions, `ImageReader`, `HandlerThread`, the UI text, the debug overlay toggle and `debugHistory`/`Log` output: platform I/O with no logic to prove.
- ML Kit recognition and its listeners: the frame gate and the completion handler are modelled only as their sequential effect on the busy flag (`OnFrame`, `OnRecognitionDone`); `@Volatile` and the threads they run on are not modelled.
- `configureTransform`, `YuvImage.compressToJpeg`, `BitmapFactory`, `Bitmap.createBitmap`, `textureView.getBitmap` and the `Matrix` rotation: foreign image libraries. `OnFrame` takes the outcome of the bitmap, crop and null-image checks as one `frameUsable` flag.
- `chooseOptimalPreviewSize`: a floating-point scoring heuristic.
- OverlayView.kt is not part of this model; the capture box is a parameter of the mappers.
- NFKC normalisation and the CJK regex patterns (the seven raw-line finders and DATE_ANY) are uninterpreted functions in `FieldExtractor.TextRules`; only literal-token steps are written out.
- RotationMapper: Float arithmetic is modelled over reals, so IEEE rounding and NaN/infinity for zero sizes are not; positive view and buffer sizes are required.
- RotationMapper.MapViewRectToUnrotatedBufferExact: the source throws on a non-perpendicular rotation; the model returns `None`.
- RotationMapper.UnrotatedBufferRectToViewRectExact: the source throws through `require` (line 346) on a non-perpendicular rotation; the model returns `None`.
- RotationMapper.RealRoundTrip: the round trip is exact before rounding. After `roundToInt` and even snapping no "within one pixel" bound holds in general: at a cover-fit scale above 1 (a 2400x1080 view over a 1280x720 buffer gives s = 10/3) one buffer pixel of snapping moves an edge by more than 3 view pixels.
- KotlinText: `\s`, `\d` and the line terminators follow the ASCII classes of desktop java.util.regex. Android's ICU-based `java.util.regex` may treat them as Unicode-aware; that difference is a platform assumption and is not modelled.
- AutoFit.AutoFitTextureView.SetAspectRatio: the `IllegalArgumentException` becomes a `false` result; `requestLayout` is left out.
- AutoFit.Measure: 32-bit overflow of `height * ratioWidth` is not modelled (unbounded naturals).
- FrameBufferCodec.Yuv420888ToNv21: 32-bit index overflow is not modelled; the planes are required to hold every strided sample, as the platform guarantees.
- FieldExtractor.FormatFromLines: the returned list is a six-field record (`Formatted`, indexed by `At`).
