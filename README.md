# VortexEditor core, modelled in Dafny

VortexEditor is an Android video editor. It has a native C++ engine: a timeline of clips, frame buffers, image utilities, colour, blur and sharpen filters, a filter manager, an audio engine, a memory pool and time helpers. A Kotlin layer on top provides transitions, audio mixing and effects, voice recording, background removal, text overlays, stickers, the timeline widget and the video exporter.

This project models those core files in Dafny 4.11 and proves properties of the model. Each source file becomes one module:

| module | file | source |
|---|---|---|
| `Common` | common.dfy | app/src/main/cpp/include/common.h; shared arithmetic (C++/Kotlin float-to-int conversion, clamps, 16-bit saturation), RGBA frames and ARGB bitmaps |
| `Lists` | lists.dfy | generic sequence helpers (find the first match, filter, ascending order) |
| `Timeline` | timeline.dfy | app/src/main/cpp/engine/timeline.cpp |
| `FrameBuffer` | frame_buffer.dfy | app/src/main/cpp/engine/frame_buffer.cpp |
| `ImageUtils` | image_utils.dfy | app/src/main/cpp/utils/image_utils.cpp |
| `ColorFilter` | color_filter.dfy | app/src/main/cpp/filters/color_filter.cpp |
| `BlurFilter` | blur_filter.dfy | app/src/main/cpp/filters/blur_filter.cpp |
| `SharpenFilter` | sharpen_filter.dfy | app/src/main/cpp/filters/sharpen_filter.cpp |
| `FilterManager` | filter_manager.dfy | app/src/main/cpp/filters/filter_manager.cpp |
| `AudioEngine` | audio_engine.dfy | app/src/main/cpp/engine/audio_engine.cpp |
| `MemoryPool` | memory_pool.dfy | app/src/main/cpp/utils/memory_pool.cpp |
| `TimeUtils` | time_utils.dfy | app/src/main/cpp/utils/time_utils.h |
| `Transitions` | transitions.dfy | app/src/main/java/com/vortexeditor/app/effects/Transitions.kt |
| `BoxBlur` | box_blur.dfy | the box blur that Transitions.kt and BackgroundRemover.kt share |
| `AudioMixer` | audio_mixer.dfy | app/src/main/java/com/vortexeditor/app/audio/AudioMixer.kt |
| `AudioEffects` | audio_effects.dfy | app/src/main/java/com/vortexeditor/app/audio/AudioEffects.kt |
| `VoiceRecorder` | voice_recorder.dfy | app/src/main/java/com/vortexeditor/app/audio/VoiceRecorder.kt |
| `BackgroundRemover` | background_remover.dfy | app/src/main/java/com/vortexeditor/app/ml/BackgroundRemover.kt |
| `TextOverlays` | text_overlay.dfy | app/src/main/java/com/vortexeditor/app/text/TextOverlay.kt |
| `Stickers` | sticker_manager.dfy | app/src/main/java/com/vortexeditor/app/stickers/StickerManager.kt |
| `TimelineWidget` | timeline_view.dfy | app/src/main/java/com/vortexeditor/app/ui/components/TimelineView.kt |
| `Export` | video_exporter.dfy | app/src/main/java/com/vortexeditor/app/export/VideoExporter.kt |

Objects whose fields the source updates in place are classes with `modifies` clauses: Timeline, FrameBuffer, FilterManager, AudioEngine, MemoryPool, AudioMixer, TextOverlayManager, StickerManager and TimelineView. Each of those methods states its whole new state. Pixel loops work on `array<int>` buffers and carry loop invariants. Each loop is tied to a specification function of the input, such as `Rotated`, `Yuv420`, `Sharpened`, `HorizontalBlurred` or `Normalized`, and lemmas state what the source promises about that function. The Kotlin `Bitmap`s and `ShortArray`s that a function builds and returns become sequences, because the caller's value is left unchanged. AudioMixer's normalizeBuffer and mixTrackIntoBuffer update a `ShortArray` in place, and so does the loop over the tracks that calls mixTrackIntoBuffer. Those are `array<int>` methods with `modifies` clauses (AudioMixer.NormalizeBuffer, AudioMixer.MixTrackIntoBuffer, AudioMixer.MixAllTracks).

Numbers are modelled as follows:
- Integers are unbounded.
- A C++ or Kotlin float-to-int conversion becomes `Trunc`, `FloatToInt` or `FloatToLong`, with Kotlin's saturation at the type's bounds.
- 16-bit PCM saturation is written out explicitly.
- C++ `/` and `%` on possibly negative operands are `CDiv` and `CRem`, which truncate toward zero.
- Floating-point values are `real`, so rounding error is not modelled.

## Model

| member | source | states |
|---|---|---|
| Timeline.NewClip | app/src/main/cpp/engine/timeline.cpp:28-41 | a new clip has the given id, track and start, no trims, speed and volume 1, and the 10-second placeholder as both its source duration and its duration |
| Timeline.Trimmed | app/src/main/cpp/engine/timeline.cpp:92-101 | trimStart is clamped to [0, sourceDuration] and trimEnd to [0, sourceDuration - trimStart]; in-range trims are kept exactly; the duration is non-negative; at unit speed the clip plays its untrimmed source; nothing else in the clip changes |
| Timeline.SplitPieces | app/src/main/cpp/engine/timeline.cpp:118-139 | the first piece starts where the clip did and ends at the split position, where the second piece (with the fresh id) starts; their durations are positive and add up to the original one; the second ends where the clip ended; both stay on the clip's track |
| Timeline.SplitAtUnitSpeed | app/src/main/cpp/engine/timeline.cpp:126-139 | at unit speed the first piece's source ends where the second's starts, and both pieces still play exactly their untrimmed source |
| Timeline.WithSpeed | app/src/main/cpp/engine/timeline.cpp:155-160 | the speed is clamped to [0.1, 10], and an in-range speed is kept; the duration is non-negative when the untrimmed rest is; only speed and duration change |
| Timeline.WithVolume | app/src/main/cpp/engine/timeline.cpp:176 | the volume is clamped to [0, 2], and an in-range volume is kept; nothing else changes |
| Timeline.MaxEndUnique | app/src/main/cpp/engine/timeline.cpp:238-247 | the timeline length, the largest clip end or 0, is determined by the clips |
| Timeline.SameEndKeepsMaxEnd | app/src/main/cpp/engine/timeline.cpp:238-247 | replacing a clip by one with the same end keeps the timeline length |
| Timeline.SplitKeepsMaxEnd | app/src/main/cpp/engine/timeline.cpp:110-145 | splitting a clip keeps the timeline length, which is why splitClip can skip recalculateDuration |
| Timeline.InIdOrderMembers | app/src/main/cpp/engine/timeline.cpp:226-232 | the clips listed in id order are exactly the stored clips with ids in range, each under its own id, in strictly ascending id order |
| Timeline.CoveringMembers | app/src/main/cpp/engine/timeline.cpp:192-197 | the filter keeps exactly the clips with startTime <= position < startTime + duration |
| Timeline.OverlappingMembers | app/src/main/cpp/engine/timeline.cpp:213-221 | the filter keeps exactly the clips with startTime < end and end of clip > start |
| Timeline.CoveringSnoc | app/src/main/cpp/engine/timeline.cpp:192-197 | visiting one more clip appends it when it covers the position |
| Timeline.OverlappingSnoc | app/src/main/cpp/engine/timeline.cpp:213-221 | visiting one more clip appends it when it overlaps the range |
| Timeline.InsertByTrackPermutes | app/src/main/cpp/engine/timeline.cpp:200-203 | inserting into a track-sorted list adds exactly that clip (a multiset equality) |
| Timeline.InsertByTrackSorted | app/src/main/cpp/engine/timeline.cpp:200-203 | inserting into a track-sorted list keeps it sorted by track |
| Timeline.SortByTrack | app/src/main/cpp/engine/timeline.cpp:200-203 | the result is sorted by trackIndex and is a permutation of the input; the order within a track is left open, as std::sort is not stable |
| Timeline.OverlappingKeepsOrder | app/src/main/cpp/engine/timeline.cpp:213-221 | filtering keeps strictly ascending id order |
| Timeline.RangeQuery | app/src/main/cpp/engine/timeline.cpp:208-224 | getClipsInRange returns exactly the stored clips overlapping the range, in ascending id order |
| Timeline.PositionQuery | app/src/main/cpp/engine/timeline.cpp:187-206 | getClipsAtPosition returns exactly the stored clips covering the position, sorted by track, as a permutation of the id-ordered scan |
| Timeline.Timeline.constructor | app/src/main/cpp/engine/timeline.cpp:5-10 | no clips, next id 1, three tracks, duration 0 |
| Timeline.Timeline.Clear | app/src/main/cpp/engine/timeline.cpp:17-23 | the clips are cleared, the duration is 0, the next id is 1 and the track count is kept |
| Timeline.Timeline.RecalculateDuration | app/src/main/cpp/engine/timeline.cpp:238-250 | the duration becomes the largest clip end, or 0 |
| Timeline.Timeline.AddClip | app/src/main/cpp/engine/timeline.cpp:25-50 | the new clip is stored under the previous counter value, which was unused; the counter increments; it returns true; the invariant (ids below the counter, duration equal to the timeline length) is kept |
| Timeline.Timeline.RemoveClip | app/src/main/cpp/engine/timeline.cpp:52-65 | it returns true iff the id was present; that id is removed and nothing else changes; the invariant is kept |
| Timeline.Timeline.MoveClip | app/src/main/cpp/engine/timeline.cpp:67-82 | it returns true iff the id was present; only that clip's track and start change |
| Timeline.Timeline.TrimClip | app/src/main/cpp/engine/timeline.cpp:84-108 | it returns true iff the id was present; only that clip changes, and it becomes Trimmed |
| Timeline.Timeline.SplitClip | app/src/main/cpp/engine/timeline.cpp:110-145 | it returns true iff the clip exists and the position lies strictly inside it; on success the clip becomes the first piece and the second piece is stored under the fresh id; on failure nothing changes; the duration is not recalculated and stays correct |
| Timeline.Timeline.SetClipSpeed | app/src/main/cpp/engine/timeline.cpp:147-166 | it returns true iff the id was present; that clip becomes WithSpeed |
| Timeline.Timeline.SetClipVolume | app/src/main/cpp/engine/timeline.cpp:168-180 | it returns true iff the id was present; that clip becomes WithVolume; the duration is unchanged |
| Timeline.Timeline.GetClip | app/src/main/cpp/engine/timeline.cpp:182-185 | the stored clip when the id is present, otherwise none |
| Timeline.Timeline.GetClipsAtPosition | app/src/main/cpp/engine/timeline.cpp:187-206 | the result is sorted by track and is a permutation of the covering clips in id order, which are exactly the stored clips covering the position |
| Timeline.Timeline.CoveringClips | app/src/main/cpp/engine/timeline.cpp:190-197 | the scan's result is the covering clips in ascending id order |
| Timeline.Timeline.GetClipsInRange | app/src/main/cpp/engine/timeline.cpp:208-224 | exactly the stored clips overlapping (start, end), in ascending id order |
| Timeline.Timeline.OverlappingClips | app/src/main/cpp/engine/timeline.cpp:211-221 | the scan's result is the overlapping clips in ascending id order |
| Timeline.Timeline.GetAllClips | app/src/main/cpp/engine/timeline.cpp:226-232 | every stored clip, each once, in ascending id order |
| Timeline.Timeline.GetDuration | app/src/main/cpp/engine/timeline.cpp:234-236 | the returned duration is the timeline length |
| Timeline.Timeline.GetTrackCount | app/src/main/cpp/engine/timeline.h:47 | returns the track count |
| Common.PresetsAreWidescreen | app/src/main/cpp/include/common.h:43-65 | the four resolution presets are 16:9 and their RGBA dataSize is four bytes per pixel (8294400 for 1080p) |
| Common.Yuv420Layout | app/src/main/cpp/include/common.h:57-65 | for even dimensions NV21 and YUV420P have the same dataSize, one full luma plane plus two quarter-size chroma planes |
| Common.DataSizeBounds | app/src/main/cpp/include/common.h:57-65 | every known format holds at least one and at most four bytes per pixel; UNKNOWN is 0 |
| TimeUtils.ClockOf | app/src/main/cpp/utils/time_utils.h:29-34 | for a non-negative timestamp the minutes and seconds lie in [0, 60) and the milliseconds in [0, 1000); the hours are the int-narrowed hour count; when it fits, the four fields put back together give the timestamp less its sub-millisecond part |
| TimeUtils.RenderShape | app/src/main/cpp/utils/time_utils.h:36-38 | "%02d:%02d:%02d.%03d" of fields below 100 (and milliseconds below 1000) is twelve characters with ':' at 2 and 5 and '.' at 8 |
| TimeUtils.FormatTime | app/src/main/cpp/utils/time_utils.h:28-40 | for timestamps under 100 hours the text is HH:MM:SS.mmm: twelve characters with the separators in place |
| TimeUtils.ParsePartial | app/src/main/cpp/utils/time_utils.h:42-47 | text sscanf cannot match leaves every field 0, so the empty string and "junk" parse as 0 |
| TimeUtils.ScanDigits | app/src/main/cpp/utils/time_utils.h:44 | one "%d" on a run of digits followed by a non-digit reads exactly that run's value and leaves the rest |
| TimeUtils.ScanRender | app/src/main/cpp/utils/time_utils.h:37-44 | sscanf's "%d:%d:%d.%d" reads back the four non-negative fields that snprintf wrote |
| TimeUtils.ValueOfDigits | app/src/main/cpp/utils/time_utils.h:37-44 | the decimal digits printed for a number read back as that number |
| TimeUtils.PadDigits | app/src/main/cpp/utils/time_utils.h:37 | a zero-padded field is all digits and reads back as the value printed |
| TimeUtils.ParseFormatRoundTrip | app/src/main/cpp/utils/time_utils.h:28-47 | parseTime(formatTime(t)) == t - t % 1000 for every non-negative t whose hour count fits in an int: the round trip loses only the sub-millisecond digits |
| TimeUtils.FramesToMicros | app/src/main/cpp/utils/time_utils.h:63-65 | frames * 1000000 / fps with truncating division: micros * fps <= frames * 1000000 < (micros + 1) * fps for non-negative frames and positive fps |
| TimeUtils.MicrosToFrames | app/src/main/cpp/utils/time_utils.h:67-69 | the result is an int; when micros * fps stays in range it is the truncated frame count, frames * 1000000 <= micros * fps < (frames + 1) * 1000000 |
| TimeUtils.MicrosToFramesWraps | app/src/main/cpp/utils/time_utils.h:68 | micros * fps wraps in int64: 2^62 microseconds at 4 fps give 0 frames |
| TimeUtils.FramesRoundTrip | app/src/main/cpp/utils/time_utils.h:63-69 | converting frames to microseconds and back never gains a frame, and returns the same count whenever fps divides frames * 1000000 |
| MemoryPool.BlockStarts | app/src/main/cpp/utils/memory_pool.cpp:11-13 | block i starts at offset i * blockSize, for each of the numBlocks blocks in order |
| MemoryPool.BlockStartsInPool | app/src/main/cpp/utils/memory_pool.cpp:5-14 | with a positive block size the block starts are strictly increasing, aligned to the block size and inside the pool |
| MemoryPool.AllocateThenDeallocate | app/src/main/cpp/utils/memory_pool.cpp:18-38 | handing out a block and giving it back restores the free list exactly |
| MemoryPool.DeallocateThenAllocate | app/src/main/cpp/utils/memory_pool.cpp:18-38 | the free list is LIFO: a pointer given back is the next block handed out, and the list is as before |
| MemoryPool.DoubleFreeGrowsList | app/src/main/cpp/utils/memory_pool.cpp:30-38 | deallocate checks only the range, so giving back a block that is already free lists it twice |
| MemoryPool.MemoryPool.constructor | app/src/main/cpp/utils/memory_pool.cpp:5-14 | the pool keeps its block size and count, and every block start is free, in order |
| MemoryPool.MemoryPool.Allocate | app/src/main/cpp/utils/memory_pool.cpp:18-28 | nullptr iff no block is free; otherwise the last free block, removed from the list |
| MemoryPool.MemoryPool.Deallocate | app/src/main/cpp/utils/memory_pool.cpp:30-38 | a pointer inside the pool is pushed on the free list; any other pointer changes nothing |
| MemoryPool.MemoryPool.Reset | app/src/main/cpp/utils/memory_pool.cpp:40-47 | the free list holds every block start again, in order |
| MemoryPool.MemoryPool.GetBlockSize | app/src/main/cpp/utils/memory_pool.h:19 | returns the block size |
| MemoryPool.MemoryPool.GetTotalBlocks | app/src/main/cpp/utils/memory_pool.h:20 | returns the block count |
| MemoryPool.MemoryPool.GetFreeBlocks | app/src/main/cpp/utils/memory_pool.h:21 | returns the number of free blocks |
| ImageUtils.Resize | app/src/main/cpp/utils/image_utils.cpp:6-35 | resize throws (None) exactly when newWidth * newHeight is negative; otherwise the frame is newWidth x newHeight with w * h * 4 bytes: the nearest-neighbour image (Resized, ResizePixel) for non-negative sides, all zero bytes when a side is negative |
| ImageUtils.SourceCoordFloor | app/src/main/cpp/utils/image_utils.cpp:14-22 | with exact arithmetic the scaled coordinate x * (srcSize / newSize), truncated, is the integer quotient x * srcSize / newSize and already inside the source, so the std::min cap never applies |
| ImageUtils.ResizePixel | app/src/main/cpp/utils/image_utils.cpp:17-31 | output pixel (x, y) copies source pixel (x * w / newWidth, y * h / newHeight), which lies inside the source |
| ImageUtils.ResizeSameSize | app/src/main/cpp/utils/image_utils.cpp:6-35 | resizing to the frame's own size gives the frame back |
| ImageUtils.Crop | app/src/main/cpp/utils/image_utils.cpp:37-64 | crop throws (None) exactly when width * height is negative; otherwise the frame has the requested size and w * h * 4 bytes: the window of the source (Cropped, CropPixel) for non-negative sides, all zero bytes when a side is negative |
| ImageUtils.CropPixel | app/src/main/cpp/utils/image_utils.cpp:46-61 | each crop byte copies the source byte at the offset position when that pixel exists, and is 0 otherwise |
| ImageUtils.CropWhole | app/src/main/cpp/utils/image_utils.cpp:37-64 | cropping the whole frame gives it back |
| ImageUtils.CropOfCrop | app/src/main/cpp/utils/image_utils.cpp:37-64 | a crop of a crop inside the first window is one crop at the summed offset |
| ImageUtils.Rotated90 | app/src/main/cpp/utils/image_utils.cpp:66-89 | the clockwise quarter turn is h wide and w high |
| ImageUtils.Rotated180 | app/src/main/cpp/utils/image_utils.cpp:91-112 | the half turn keeps the size |
| ImageUtils.Rotated270 | app/src/main/cpp/utils/image_utils.cpp:114-137 | the counter-clockwise quarter turn is h wide and w high |
| ImageUtils.RotationsSend | app/src/main/cpp/utils/image_utils.cpp:66-137 | each rotation puts source pixel (x, y) where its loop writes it: (h-1-y, x), (w-1-x, h-1-y) and (y, w-1-x) |
| ImageUtils.Rotate270Undoes90 | app/src/main/cpp/utils/image_utils.cpp:66-137 | rotate270 after rotate90 gives the frame back |
| ImageUtils.Rotate90Undoes270 | app/src/main/cpp/utils/image_utils.cpp:66-137 | rotate90 after rotate270 gives the frame back |
| ImageUtils.Rotate90Twice | app/src/main/cpp/utils/image_utils.cpp:66-112 | two quarter turns are the half turn |
| ImageUtils.Rotate180Twice | app/src/main/cpp/utils/image_utils.cpp:91-112 | two half turns give the frame back |
| ImageUtils.Rotate90FourTimes | app/src/main/cpp/utils/image_utils.cpp:66-89 | four quarter turns give the frame back |
| ImageUtils.FlippedH | app/src/main/cpp/utils/image_utils.cpp:139-155 | the horizontal mirror keeps the size |
| ImageUtils.FlippedV | app/src/main/cpp/utils/image_utils.cpp:157-171 | the vertical mirror keeps the size |
| ImageUtils.FlipHTwice | app/src/main/cpp/utils/image_utils.cpp:139-155 | flipping horizontally twice gives the frame back |
| ImageUtils.FlipVTwice | app/src/main/cpp/utils/image_utils.cpp:157-171 | flipping vertically twice gives the frame back |
| ImageUtils.FlipsMakeHalfTurn | app/src/main/cpp/utils/image_utils.cpp:91-171 | flipping both ways is the half turn |
| ImageUtils.FlippedHBytes | app/src/main/cpp/utils/image_utils.cpp:139-155 | each byte of the horizontal flip is the source byte at its mirror position, which is inside the buffer |
| ImageUtils.FlippedVBytes | app/src/main/cpp/utils/image_utils.cpp:157-171 | each byte of the vertical flip is the source byte at its mirror row, which is inside the buffer |
| ImageUtils.FlipH | app/src/main/cpp/utils/image_utils.cpp:139-155 | the in-place pair swaps over a copy of the source produce exactly FlippedH |
| ImageUtils.SwapMirrorPixels | app/src/main/cpp/utils/image_utils.cpp:146-151 | swapping pixel (x, y) with (w-1-x, y) extends the mirrored part of the row by one pair |
| ImageUtils.MiddleColumnFixed | app/src/main/cpp/utils/image_utils.cpp:144-153 | the middle column of an odd-width frame, which the loop never visits, is its own mirror |
| ImageUtils.FlipV | app/src/main/cpp/utils/image_utils.cpp:157-171 | the row swaps over a copy of the source produce exactly FlippedV |
| ImageUtils.SwapRowBytes | app/src/main/cpp/utils/image_utils.cpp:163-168 | swapping byte i of row y with byte i of row h-1-y extends the swapped part by one byte |
| ImageUtils.MiddleRowFixed | app/src/main/cpp/utils/image_utils.cpp:161-169 | the middle row of an odd-height frame, which the loop never visits, is its own mirror |
| ImageUtils.CopiedRegion | app/src/main/cpp/utils/image_utils.cpp:173-197 | the destination keeps its size |
| ImageUtils.CopiedRegionBytes | app/src/main/cpp/utils/image_utils.cpp:173-197 | each destination byte takes the source byte at its offset when the offset is inside the region and both pixels exist, and keeps its old value otherwise |
| ImageUtils.CopyWholeFrame | app/src/main/cpp/utils/image_utils.cpp:173-197 | copying a whole frame onto one of the same size at the origin gives the source |
| ImageUtils.CopyEmptyRegion | app/src/main/cpp/utils/image_utils.cpp:173-197 | an empty region changes nothing |
| ImageUtils.CopyRegion | app/src/main/cpp/utils/image_utils.cpp:173-197 | the destination array becomes CopiedRegion of its old contents |
| ImageUtils.PaintPixel | app/src/main/cpp/utils/image_utils.cpp:191-194 | the four bytes of pixel (x, y) take the colour and every other byte keeps its value |
| ImageUtils.Filled | app/src/main/cpp/utils/image_utils.cpp:199-206 | the filled buffer keeps its length |
| ImageUtils.Fill | app/src/main/cpp/utils/image_utils.cpp:199-206 | every pixel becomes (r, g, b, a) |
| ImageUtils.FilledRect | app/src/main/cpp/utils/image_utils.cpp:208-224 | the frame keeps its size |
| ImageUtils.FilledRectBytes | app/src/main/cpp/utils/image_utils.cpp:208-224 | each byte inside the rectangle and the frame takes the colour; every other byte keeps its value |
| ImageUtils.FillRectWholeIsFill | app/src/main/cpp/utils/image_utils.cpp:199-224 | a rectangle covering the frame is the same as fill |
| ImageUtils.FillRectOutsideFrame | app/src/main/cpp/utils/image_utils.cpp:208-224 | an empty rectangle, or one that misses the frame, changes nothing |
| ImageUtils.FillRect | app/src/main/cpp/utils/image_utils.cpp:208-224 | the buffer becomes FilledRect of its old contents |
| FrameBuffer.Rotated | app/src/main/cpp/engine/frame_buffer.cpp:164-213 | a quarter turn swaps width and height, any other angle keeps them |
| FrameBuffer.RotateAgreesWithImageUtils | app/src/main/cpp/engine/frame_buffer.cpp:164-213 | rotate(90), rotate(180) and rotate(270) produce the same frames as ImageUtils' rotate90, rotate180 and rotate270 |
| FrameBuffer.RotateOtherIsCopy | app/src/main/cpp/engine/frame_buffer.cpp:190-210 | any angle other than 90, 180 and 270 gives an exact copy |
| FrameBuffer.RotateInverse | app/src/main/cpp/engine/frame_buffer.cpp:164-213 | rotating by 90 then 270, 270 then 90, or 180 twice gives the frame back |
| FrameBuffer.RotSourceInGrid | app/src/main/cpp/engine/frame_buffer.cpp:180-210 | every pixel of the rotated frame is written from a pixel of the source |
| FrameBuffer.Luma | app/src/main/cpp/engine/frame_buffer.cpp:265-266 | the luma of 8-bit red, green and blue lies in the studio range [16, 235] |
| FrameBuffer.ChromaU | app/src/main/cpp/engine/frame_buffer.cpp:271-272 | the blue-difference chroma of 8-bit input lies in [16, 240], and is 128 for a grey pixel |
| FrameBuffer.ChromaV | app/src/main/cpp/engine/frame_buffer.cpp:273-274 | the red-difference chroma of 8-bit input lies in [16, 240], and is 128 for a grey pixel |
| FrameBuffer.DecodeRed | app/src/main/cpp/engine/frame_buffer.cpp:297-302 | the decoded red is clamped to a byte |
| FrameBuffer.DecodeGreen | app/src/main/cpp/engine/frame_buffer.cpp:298-303 | the decoded green is clamped to a byte |
| FrameBuffer.DecodeBlue | app/src/main/cpp/engine/frame_buffer.cpp:299-304 | the decoded blue is clamped to a byte |
| FrameBuffer.DecodeFormulas | app/src/main/cpp/engine/frame_buffer.cpp:293-304 | max(0, min(255, (298Y + 409V + 128) >> 8)) and the green and blue formulas are DecodeRed, DecodeGreen and DecodeBlue of the offset samples |
| FrameBuffer.GreyRoundTrip | app/src/main/cpp/engine/frame_buffer.cpp:249-308 | a grey level encoded and decoded comes back within one step in all three channels, which agree, and black and white come back exactly |
| FrameBuffer.UvSize | app/src/main/cpp/engine/frame_buffer.cpp:251 | the chroma plane size is never negative |
| FrameBuffer.OddFrameOverrunsBuffer | app/src/main/cpp/engine/frame_buffer.cpp:251-273 | as written, for a 3 x 3 frame the U sample of pixel (2, 2) lands on the first V sample and its V sample on byte 13 of a 13-byte YUV420P buffer |
| FrameBuffer.OddWidthOverlapsPlanes | app/src/main/cpp/engine/frame_buffer.cpp:251-273 | as written, for a 3 x 2 frame the U sample of pixel (2, 0) lands on the V sample of block (0, 0) |
| FrameBuffer.UvIndexInPlane | app/src/main/cpp/engine/frame_buffer.cpp:269-274 | with the rounded-up layout every pixel's chroma index lies inside the chroma plane |
| FrameBuffer.EvenFrameLayout | app/src/main/cpp/engine/frame_buffer.cpp:250-270 | for even sizes the rounded-up layout is the source's: the same plane size, the same index for every pixel, and exactly DataSize(YUV420P) bytes |
| FrameBuffer.ChromaOwner | app/src/main/cpp/engine/frame_buffer.cpp:257-275 | every chroma byte is written by the top-left pixel of its 2x2 block, which lies inside the frame |
| FrameBuffer.Yuv420 | app/src/main/cpp/engine/frame_buffer.cpp:249-278 | the converted buffer holds the luma plane and both chroma planes |
| FrameBuffer.OwnerAt | app/src/main/cpp/engine/frame_buffer.cpp:257-275 | the bytes a visit to pixel (x, y) writes are exactly its luma byte and, for even x and y, its block's U and V bytes |
| FrameBuffer.PixelYuvBytes | app/src/main/cpp/engine/frame_buffer.cpp:259-274 | the bytes pixel (x, y) writes hold its luma and, for even x and y, its U and V samples |
| FrameBuffer.OwnerInFrame | app/src/main/cpp/engine/frame_buffer.cpp:257-278 | every byte of the YUV buffer is written by some pixel of the frame |
| FrameBuffer.Yuv420Planes | app/src/main/cpp/engine/frame_buffer.cpp:257-278 | the luma of pixel (x, y) sits at y * w + x, and a pixel with even x and even y supplies the U and V samples of its block |
| FrameBuffer.ChromaFromEvenPixels | app/src/main/cpp/engine/frame_buffer.cpp:269 | only pixels with even x and even y supply chroma |
| FrameBuffer.Yuv420InStudioRange | app/src/main/cpp/engine/frame_buffer.cpp:265-274 | for 8-bit input every byte of the YUV buffer lies in [16, 240], so no uint8 cast wraps |
| FrameBuffer.RgbaByte | app/src/main/cpp/engine/frame_buffer.cpp:301-305 | every output byte is a byte, and every alpha byte is 255 |
| FrameBuffer.SampleIndices | app/src/main/cpp/engine/frame_buffer.cpp:290-295 | the luma, U and V samples of every pixel lie inside their planes |
| FrameBuffer.DecodedPixelByte | app/src/main/cpp/engine/frame_buffer.cpp:290-305 | each byte of pixel (x, y) decodes the pixel's own luma with its block's chroma |
| FrameBuffer.PixelDecodes | app/src/main/cpp/engine/frame_buffer.cpp:290-305 | all four bytes of pixel (x, y) decode the pixel's luma with its block's chroma, alpha 255 |
| FrameBuffer.Decoded | app/src/main/cpp/engine/frame_buffer.cpp:280-308 | the RGBA output has four bytes per pixel |
| FrameBuffer.GreyFrameRoundTrip | app/src/main/cpp/engine/frame_buffer.cpp:249-308 | converting a grey frame to YUV and back changes no colour byte by more than one step and makes every pixel opaque |
| FrameBuffer.GreyByteRoundTrip | app/src/main/cpp/engine/frame_buffer.cpp:249-308 | each colour byte of a grey frame survives the round trip within one step |
| FrameBuffer.GreySamples | app/src/main/cpp/engine/frame_buffer.cpp:257-275 | a grey pixel's samples are its luma and neutral chroma 128 |
| FrameBuffer.ChromaOfGrey | app/src/main/cpp/engine/frame_buffer.cpp:269-275 | every chroma sample of a grey frame is 128 |
| FrameBuffer.BlendByteBetween | app/src/main/cpp/engine/frame_buffer.cpp:84-89 | for bytes and an alpha in [0, 1] the mix lies between the two inputs, so the uint8 cast never wraps; alpha 0 keeps the destination and alpha 1 takes the source |
| FrameBuffer.Blended | app/src/main/cpp/engine/frame_buffer.cpp:77-91 | blending keeps the destination's length |
| FrameBuffer.BlendedBytes | app/src/main/cpp/engine/frame_buffer.cpp:77-91 | blending bytes with an alpha in [0, 1] gives bytes, each between the two it mixes |
| FrameBuffer.BlendedBytesWhereDefined | app/src/main/cpp/engine/frame_buffer.cpp:77-91 | for any alpha whose mixes stay in [0, 256), where the uint8 cast is defined, blending gives bytes |
| FrameBuffer.UnitAlphaInRange | app/src/main/cpp/engine/frame_buffer.cpp:77-91 | for bytes, every alpha in [0, 1] keeps each mix in [0, 256) |
| FrameBuffer.BlendZeroKeepsDest | app/src/main/cpp/engine/frame_buffer.cpp:77-91 | alpha 0 leaves the destination as it was |
| FrameBuffer.BlendOneCopiesSource | app/src/main/cpp/engine/frame_buffer.cpp:77-91 | alpha 1 copies the colour bytes of every pixel both buffers hold, and alpha bytes stay |
| FrameBuffer.ScaledWithin | app/src/main/cpp/engine/frame_buffer.cpp:37-46 | a size scaled by at most bound / size and truncated stays within [0, bound], reaches the bound at the full scale, and centres inside it |
| FrameBuffer.PlacementFits | app/src/main/cpp/engine/frame_buffer.cpp:37-46 | the centred window lies inside the destination; a non-empty window has a positive scale; the window is no larger than the scaled source |
| FrameBuffer.PlacementFillsOneSide | app/src/main/cpp/engine/frame_buffer.cpp:37-46 | fit inside: the scaled source spans the full width or the full height of the destination |
| FrameBuffer.PlacementSameSize | app/src/main/cpp/engine/frame_buffer.cpp:37-46 | a source of the destination's size is placed at scale 1 over the whole frame |
| FrameBuffer.SrcCoordInRange | app/src/main/cpp/engine/frame_buffer.cpp:51-55 | inside the scaled window the truncated source coordinate is already in range, so the cap never applies |
| FrameBuffer.WindowSample | app/src/main/cpp/engine/frame_buffer.cpp:49-60 | every position of the window samples an existing source pixel, so the bounds check at line 60 always passes |
| FrameBuffer.Composited | app/src/main/cpp/engine/frame_buffer.cpp:23-75 | composite keeps the destination's size |
| FrameBuffer.CompositeEffect | app/src/main/cpp/engine/frame_buffer.cpp:23-75 | inside the centred window a pixel becomes the blended source sample; outside it the destination is as it was; an empty source changes nothing |
| FrameBuffer.WindowPixel | app/src/main/cpp/engine/frame_buffer.cpp:57-71 | a window pixel is a byte, its alpha becomes 255, an opaque source pixel is copied and a transparent one leaves the colour as it was |
| FrameBuffer.FrameBuffer.constructor | app/src/main/cpp/engine/frame_buffer.cpp:6-12 | the buffer holds width * height * 4 bytes, all 0 |
| FrameBuffer.FrameBuffer.Clear | app/src/main/cpp/engine/frame_buffer.cpp:18-21 | every byte of the buffer becomes 0 |
| FrameBuffer.FrameBuffer.RgbaToYuv420 | app/src/main/cpp/engine/frame_buffer.cpp:249-278 | the first YuvSize bytes become Yuv420 of the input and the rest of the buffer is untouched |
| FrameBuffer.FrameBuffer.ConvertPixel | app/src/main/cpp/engine/frame_buffer.cpp:259-275 | a visit to pixel (x, y) writes its luma byte and, for even x and y, its block's U and V bytes, and nothing else |
| FrameBuffer.FrameBuffer.Yuv420ToRgba | app/src/main/cpp/engine/frame_buffer.cpp:280-308 | the output buffer becomes Decoded of the YUV input |
| FrameBuffer.FrameBuffer.DecodePixel | app/src/main/cpp/engine/frame_buffer.cpp:290-305 | a visit to pixel (x, y) writes its four decoded bytes and nothing else |
| FrameBuffer.FrameBuffer.DecodeSamples | app/src/main/cpp/engine/frame_buffer.cpp:290-304 | the clamped colour computed for pixel (x, y) is the one Decoded holds for it |
| FrameBuffer.FrameBuffer.ConvertSample | app/src/main/cpp/engine/frame_buffer.cpp:293-304 | the three clamped channels of one (Y, U, V) sample |
| FrameBuffer.FrameBuffer.Rotate | app/src/main/cpp/engine/frame_buffer.cpp:164-213 | the result is Rotated of the source |
| FrameBuffer.FrameBuffer.Crop | app/src/main/cpp/engine/frame_buffer.cpp:136-162 | the result is ImageUtils.Crop of the source: none on a negative area, otherwise in-frame pixels copied and the rest 0 |
| FrameBuffer.FrameBuffer.FlipHorizontal | app/src/main/cpp/engine/frame_buffer.cpp:215-230 | the result is the horizontal mirror of the source |
| FrameBuffer.FrameBuffer.FlipVertical | app/src/main/cpp/engine/frame_buffer.cpp:232-247 | the result is the vertical mirror of the source |
| FrameBuffer.FrameBuffer.Blend | app/src/main/cpp/engine/frame_buffer.cpp:77-91 | for any alpha, the destination becomes Blended of its old contents |
| FrameBuffer.FrameBuffer.Composite | app/src/main/cpp/engine/frame_buffer.cpp:23-75 | the destination becomes Composited of its old contents |
| FrameBuffer.FrameBuffer.ComputePlacement | app/src/main/cpp/engine/frame_buffer.cpp:37-46 | the scale, scaled size and offsets are those of Place |
| FrameBuffer.FrameBuffer.SourcePixel | app/src/main/cpp/engine/frame_buffer.cpp:51-55 | the sampled source pixel is the truncated, capped coordinate pair, inside the source |
| FrameBuffer.FrameBuffer.CompositePixel | app/src/main/cpp/engine/frame_buffer.cpp:57-72 | a window position writes the four bytes of its destination pixel with CompValue and nothing else |
| ColorFilter.Dispatch | app/src/main/cpp/filters/color_filter.cpp:15-33 | apply's branch for a type name: "brightness", "grayscale", "invert" and the float-only names each select their own routine, and any other name does nothing |
| ColorFilter.TemperatureAndTintNotDispatched | app/src/main/cpp/filters/color_filter.cpp:15-33 | apply never selects temperature or tint, though both have routines |
| ColorFilter.BrightnessProperties | app/src/main/cpp/filters/color_filter.cpp:35-43 | brightness adds the adjustment to red, green and blue, clamped to [0, 255], keeps alpha, and a zero adjustment changes nothing |
| ColorFilter.TemperatureProperties | app/src/main/cpp/filters/color_filter.cpp:90-98 | temperature moves red by the red adjustment and blue by the blue one, clamped; green and alpha are untouched |
| ColorFilter.TintProperties | app/src/main/cpp/filters/color_filter.cpp:100-109 | tint adds the green adjustment to green and the magenta adjustment to red and blue, each clamped to [0, 255]; alpha is untouched |
| ColorFilter.InvertInvolution | app/src/main/cpp/filters/color_filter.cpp:143-149 | inverting keeps bytes, never touches alpha, and inverting twice gives the buffer back |
| ColorFilter.GrayInRange | app/src/main/cpp/filters/color_filter.cpp:130-141 | the weighted grey of three bytes is a byte, and a grey pixel's own level |
| ColorFilter.GrayscaleProperties | app/src/main/cpp/filters/color_filter.cpp:130-141 | after grayscale each pixel has R = G = B, bytes stay bytes, alpha is kept, and an already grey frame is unchanged |
| ColorFilter.GrayscaleBytes | app/src/main/cpp/filters/color_filter.cpp:130-141 | grayscale keeps every byte a byte |
| ColorFilter.GrayscaleChannels | app/src/main/cpp/filters/color_filter.cpp:133-139 | each pixel's three colour bytes become the same grey and its alpha is kept |
| ColorFilter.GrayscaleKeepsGray | app/src/main/cpp/filters/color_filter.cpp:130-141 | a frame whose pixels are already grey is unchanged |
| ColorFilter.AdjustBrightness | app/src/main/cpp/filters/color_filter.cpp:35-43 | the buffer becomes Brightened by (value * 255) truncated |
| ColorFilter.AdjustTemperature | app/src/main/cpp/filters/color_filter.cpp:90-98 | the buffer becomes Warmed by (value * 30) on red and (-value * 30) on blue, truncated |
| ColorFilter.AdjustTint | app/src/main/cpp/filters/color_filter.cpp:100-109 | the buffer becomes Tinted by (value * 30) and (-value * 15), truncated |
| ColorFilter.ApplyGrayscale | app/src/main/cpp/filters/color_filter.cpp:130-141 | the buffer becomes Grayed of its old contents |
| ColorFilter.GrayscalePixel | app/src/main/cpp/filters/color_filter.cpp:131-139 | one loop step turns the pixel at byte i grey and keeps its alpha; nothing else changes |
| ColorFilter.ApplyInvert | app/src/main/cpp/filters/color_filter.cpp:143-149 | the buffer becomes Inverted of its old contents |
| ColorFilter.AppliedKeepsFrames | app/src/main/cpp/filters/color_filter.cpp:15-33 | apply keeps a frame buffer a buffer of bytes, and an unknown type name changes nothing |
| ColorFilter.Apply | app/src/main/cpp/filters/color_filter.cpp:15-33 | the buffer becomes Applied for the type name and intensity |
| BlurFilter.InRange | app/src/main/cpp/filters/blur_filter.cpp:36-45 | the number of window positions inside the row or column is never negative |
| BlurFilter.InRangeCentre | app/src/main/cpp/filters/blur_filter.cpp:36-45 | the window around an in-frame pixel holds that pixel, so count is at least 1 and the division is defined |
| BlurFilter.RowSumBetween | app/src/main/cpp/filters/blur_filter.cpp:36-45 | a row window's sum of values in [a, b] lies between a and b times the in-range count |
| BlurFilter.ColSumBetween | app/src/main/cpp/filters/blur_filter.cpp:62-72 | a column window's sum of values in [a, b] lies between a and b times the in-range count |
| BlurFilter.HorizontalWithin | app/src/main/cpp/filters/blur_filter.cpp:28-55 | each channel of the horizontal pass lies between the least and greatest value of its window |
| BlurFilter.VerticalWithin | app/src/main/cpp/filters/blur_filter.cpp:57-82 | each channel of the vertical pass lies between the least and greatest value of its window |
| BlurFilter.BoxBlurValid | app/src/main/cpp/filters/blur_filter.cpp:18-26 | the box blur keeps the frame's shape and keeps every channel a byte, so no uint8 store wraps |
| BlurFilter.BoxBlurUniform | app/src/main/cpp/filters/blur_filter.cpp:18-26 | a frame of one colour is unchanged by the blur |
| BlurFilter.RowWindow | app/src/main/cpp/filters/blur_filter.cpp:36-45 | the kx loop sums each channel over the in-frame part of the row window and counts it, at least 1 |
| BlurFilter.ColumnWindow | app/src/main/cpp/filters/blur_filter.cpp:62-72 | the ky loop sums each channel over the in-frame part of the column window and counts it, at least 1 |
| BlurFilter.HorizontalPixelStep | app/src/main/cpp/filters/blur_filter.cpp:33-52 | one pixel of the horizontal pass writes its four averages and extends the correct prefix by that pixel |
| BlurFilter.HorizontalPass | app/src/main/cpp/filters/blur_filter.cpp:31-54 | the y and x loops of the horizontal pass write every pixel of the target |
| BlurFilter.HorizontalBlur | app/src/main/cpp/filters/blur_filter.cpp:28-55 | dst becomes HorizontalBlurred of src: each channel the truncated mean of its in-frame row window |
| BlurFilter.VerticalPixelStep | app/src/main/cpp/filters/blur_filter.cpp:59-80 | one pixel of the vertical pass writes its four averages and extends the correct prefix by that pixel |
| BlurFilter.VerticalPass | app/src/main/cpp/filters/blur_filter.cpp:58-81 | the y and x loops of the vertical pass write every pixel of the target |
| BlurFilter.VerticalBlur | app/src/main/cpp/filters/blur_filter.cpp:57-82 | dst becomes VerticalBlurred of src: each channel the truncated mean of its in-frame column window |
| BlurFilter.BoxBlur | app/src/main/cpp/filters/blur_filter.cpp:18-26 | the frame becomes BoxBlurred (vertical pass over the horizontal pass; unchanged for radius <= 0) and stays bytes |
| BlurFilter.Apply | app/src/main/cpp/filters/blur_filter.cpp:14-16 | apply is boxBlur |
| BlurFilter.GaussianBlur | app/src/main/cpp/filters/blur_filter.cpp:84-85 | a radius of at most 0 returns with the frame unchanged |
| BlurFilter.MotionBlur | app/src/main/cpp/filters/blur_filter.cpp:166-167 | a distance of at most 0 returns with the frame unchanged |
| SharpenFilter.Kernel | app/src/main/cpp/filters/sharpen_filter.cpp:8-12 | the kernel has nine weights |
| SharpenFilter.DotKernel | app/src/main/cpp/filters/sharpen_filter.cpp:8-26 | the nine products of any taps against the kernel sum to the centre weighted 1 + 4i minus i times its four neighbours |
| SharpenFilter.KernelSumClosedForm | app/src/main/cpp/filters/sharpen_filter.cpp:19-26 | the ky / kx loop computes that closed form for every pixel and channel |
| SharpenFilter.Sharpened | app/src/main/cpp/filters/sharpen_filter.cpp:6-52 | the result keeps the frame's shape |
| SharpenFilter.SharpByteIsByte | app/src/main/cpp/filters/sharpen_filter.cpp:29 | every interior colour byte lies in [0, 255]: the clamp precedes the cast |
| SharpenFilter.SharpenKeepsBorderAndAlpha | app/src/main/cpp/filters/sharpen_filter.cpp:32-49 | border pixels and every alpha byte are copied unchanged, and the result holds bytes when the input does |
| SharpenFilter.SharpenZeroIsIdentity | app/src/main/cpp/filters/sharpen_filter.cpp:6-52 | intensity 0 makes the kernel the identity and the frame comes back unchanged |
| SharpenFilter.SharpenSmallFrame | app/src/main/cpp/filters/sharpen_filter.cpp:16-49 | a frame narrower or shorter than 3 pixels has no interior and comes back unchanged |
| SharpenFilter.SharpenFlatNeighbourhood | app/src/main/cpp/filters/sharpen_filter.cpp:8-29 | the weights sum to 1, so an interior pixel whose four neighbours share its value keeps it |
| SharpenFilter.SumKernel | app/src/main/cpp/filters/sharpen_filter.cpp:19-26 | the kernel loops' sum for channel c of pixel (x, y) is the dot product of its taps with the kernel |
| SharpenFilter.SumKernelRow | app/src/main/cpp/filters/sharpen_filter.cpp:22-25 | the kx loop adds the three products of one kernel row |
| SharpenFilter.TapIndex | app/src/main/cpp/filters/sharpen_filter.cpp:23-24 | the byte the loop reads for tap (kx, ky) is the matching tap of the pixel |
| SharpenFilter.SharpChannels | app/src/main/cpp/filters/sharpen_filter.cpp:18-30 | the three colour outputs of an interior pixel are its clamped kernel sums |
| SharpenFilter.SharpenPixel | app/src/main/cpp/filters/sharpen_filter.cpp:18-34 | an interior pixel gets its three kernel outputs and its own alpha; nothing else changes |
| SharpenFilter.InteriorPass | app/src/main/cpp/filters/sharpen_filter.cpp:16-36 | after the kernel loops every interior pixel of the zeroed result holds its final value and the border is still 0 |
| SharpenFilter.EdgePass | app/src/main/cpp/filters/sharpen_filter.cpp:38-49 | the edge loops copy every border pixel, completing the sharpened frame |
| SharpenFilter.Apply | app/src/main/cpp/filters/sharpen_filter.cpp:6-52 | the frame becomes Sharpened of the old one |
| SharpenFilter.Unsharpened | app/src/main/cpp/filters/sharpen_filter.cpp:114-123 | the final pass keeps the buffer's length |
| SharpenFilter.UnsharpenedProperties | app/src/main/cpp/filters/sharpen_filter.cpp:111-123 | the final pass keeps alpha and bytes, changes a colour byte only where it differs from the blurred one by more than the threshold, and with amount 0 changes nothing |
| SharpenFilter.UnsharpPixel | app/src/main/cpp/filters/sharpen_filter.cpp:115-122 | one step passes the pixel's three colour bytes through the threshold-and-push rule and changes nothing else |
| SharpenFilter.UnsharpPass | app/src/main/cpp/filters/sharpen_filter.cpp:114-123 | the buffer becomes Unsharpened against the blurred copy |
| SharpenFilter.BlurredCopy | app/src/main/cpp/filters/sharpen_filter.cpp:56-109 | the blurred copy is UnsharpBlurred: the horizontal then vertical box-blur means of the colour bytes, with the frame's own alpha bytes |
| SharpenFilter.UnsharpBlurred | app/src/main/cpp/filters/sharpen_filter.cpp:56-109 | its colour bytes are BlurFilter's two-pass means and its alpha bytes the frame's own |
| SharpenFilter.UnsharpIgnoresBlurAlpha | app/src/main/cpp/filters/sharpen_filter.cpp:112-121 | the final pass reads only colour bytes, so sharpening against the unsharp blur equals sharpening against BlurFilter's passes with alpha averaged |
| SharpenFilter.UnsharpMask | app/src/main/cpp/filters/sharpen_filter.cpp:54-124 | the frame becomes the final pass over the blurred copy with radius and threshold truncated |
| FilterManager.CallFor | app/src/main/cpp/filters/filter_manager.cpp:99-108 | a filter is skipped exactly when its type is in neither group; a brightness/contrast/saturation/hue filter makes a colour call with its intensity, a blur/gaussian filter a blur call with the intensity truncated toward zero |
| FilterManager.ListedButSkipped | app/src/main/cpp/filters/filter_manager.cpp:99-126 | of the eleven types getAvailableFilters offers, exactly sharpen, vignette, sepia, grayscale and invert never reach a filter |
| FilterManager.Run | app/src/main/cpp/filters/filter_manager.cpp:97-110 | running the calls in order keeps a well-formed frame of the same width and height |
| FilterManager.StepKeepsFrames | app/src/main/cpp/filters/filter_manager.cpp:101-107 | one call keeps a well-formed frame of the same size |
| FilterManager.NothingWithoutFilters | app/src/main/cpp/filters/filter_manager.cpp:101-107 | with neither filter object (before initialize, after release) the whole pass leaves the frame as it was |
| FilterManager.SkippedListsCallNothing | app/src/main/cpp/filters/filter_manager.cpp:98-109 | a list holding only skipped types makes no call |
| FilterManager.FirstWithId | app/src/main/cpp/filters/filter_manager.cpp:61-67 | the scan stops at the first filter carrying the id, or at the end when none does |
| FilterManager.RemovedFirstProperties | app/src/main/cpp/filters/filter_manager.cpp:52-70 | removal erases exactly the first match, keeps the other filters in order, and (ids being increasing) leaves none with that id; no match leaves the list as it was |
| FilterManager.UpdatedFirstProperties | app/src/main/cpp/filters/filter_manager.cpp:72-89 | update changes only the params of the first match; every id and type and every other filter stays |
| FilterManager.AppendKeepsIds | app/src/main/cpp/filters/filter_manager.cpp:41-46 | appending a filter under the next counter value keeps the list's ids increasing and below the new counter |
| FilterManager.AddThenRemove | app/src/main/cpp/filters/filter_manager.cpp:38-70 | removing the filter just added gives the list back |
| FilterManager.InsertKeyMembers | app/src/main/cpp/filters/filter_manager.h:39 | the clip keys after an insert are the old keys plus the new one |
| FilterManager.InsertKeySorted | app/src/main/cpp/filters/filter_manager.h:39 | the keys stay strictly ascending, the order std::map iterates in |
| FilterManager.FilterManager.constructor | app/src/main/cpp/filters/filter_manager.cpp:5-9 | no lists, no filter objects, not initialized, the id counter at 1 |
| FilterManager.FilterManager.Initialize | app/src/main/cpp/filters/filter_manager.cpp:16-25 | both filter objects exist, initialized, returns true |
| FilterManager.FilterManager.Release | app/src/main/cpp/filters/filter_manager.cpp:27-36 | every list and both filter objects are gone, not initialized; the id counter is kept |
| FilterManager.FilterManager.AddFilter | app/src/main/cpp/filters/filter_manager.cpp:38-50 | the clip's list (created empty when missing) gains the filter under the old counter value, the counter goes up by one, returns true |
| FilterManager.FilterManager.FindFilter | app/src/main/cpp/filters/filter_manager.cpp:61-67 | the loop returns FirstWithId |
| FilterManager.FilterManager.RemoveFilter | app/src/main/cpp/filters/filter_manager.cpp:52-70 | true exactly when the clip exists and holds the id; then the clip's list is RemovedFirst, otherwise nothing changes |
| FilterManager.FilterManager.UpdateFilter | app/src/main/cpp/filters/filter_manager.cpp:72-89 | true exactly when the clip exists and holds the id; then the clip's list is UpdatedFirst, otherwise nothing changes |
| FilterManager.FilterManager.ApplyFilters | app/src/main/cpp/filters/filter_manager.cpp:91-111 | the frame after the pass is Run of every clip's calls, clips in ascending id order and each list in order; clipPath plays no part |
| FilterManager.ApplyList | app/src/main/cpp/filters/filter_manager.cpp:98-109 | the inner loop appends one clip's calls to those already run |
| FilterManager.ExecuteCall | app/src/main/cpp/filters/filter_manager.cpp:99-108 | one call on the buffer has the effect of Step and keeps every value a byte |
| BoxBlur.Taps | app/src/main/java/com/vortexeditor/app/effects/Transitions.kt:289-290 | a loop `-radius..radius step step` makes at least one tap |
| BoxBlur.TapsBound | app/src/main/java/com/vortexeditor/app/effects/Transitions.kt:289-290 | the t-th offset stays within radius exactly for t below Taps, so Taps counts the loop's iterations |
| BoxBlur.ChannelOf | app/src/main/java/com/vortexeditor/app/effects/Transitions.kt:294-296 | each extracted channel is a byte |
| BoxBlur.Sample | app/src/main/java/com/vortexeditor/app/effects/Transitions.kt:291-293 | the sample at a clamped coordinate is a byte, whatever the offset |
| BoxBlur.RowSumBounds | app/src/main/java/com/vortexeditor/app/effects/Transitions.kt:290-298 | k taps sum to between 0 and 255 k |
| BoxBlur.BoxSumBounds | app/src/main/java/com/vortexeditor/app/effects/Transitions.kt:289-299 | k rows of taps sum to between 0 and 255 times the tap count |
| BoxBlur.Average | app/src/main/java/com/vortexeditor/app/effects/Transitions.kt:301 | the Int quotient of a channel's sum by the tap count is a byte |
| BoxBlur.AverageIsByte | app/src/main/java/com/vortexeditor/app/ml/BackgroundRemover.kt:228 | a sum of count bytes divided by count is a byte |
| BoxBlur.BoxColor | app/src/main/java/com/vortexeditor/app/ml/BackgroundRemover.kt:228 | Color.rgb of the three averages is an opaque colour |
| BoxBlur.RowSums | app/src/main/java/com/vortexeditor/app/effects/Transitions.kt:290-298 | the dx loop returns the three RowSums over all taps and their count |
| BoxBlur.BoxAverage | app/src/main/java/com/vortexeditor/app/effects/Transitions.kt:284-301 | both tap loops return BoxColor and a count of Taps squared |
| BoxBlur.UniformRowSum | app/src/main/java/com/vortexeditor/app/ml/BackgroundRemover.kt:216-225 | over a bitmap of one colour, k taps sum to k times its channel |
| BoxBlur.UniformBoxSum | app/src/main/java/com/vortexeditor/app/ml/BackgroundRemover.kt:216-226 | over a bitmap of one colour, the full box sums to the tap count times its channel |
| BoxBlur.UniformAverage | app/src/main/java/com/vortexeditor/app/ml/BackgroundRemover.kt:228 | averaging one colour gives its channel back |
| BoxBlur.UniformBoxColor | app/src/main/java/com/vortexeditor/app/ml/BackgroundRemover.kt:228 | blurring a bitmap of one colour gives that colour, made opaque, everywhere |
| BoxBlur.SinglePointAverage | app/src/main/java/com/vortexeditor/app/ml/BackgroundRemover.kt:216-228 | radius 0 averages the pixel alone |
| Transitions.DispatchIsBijective | app/src/main/java/com/vortexeditor/app/effects/Transitions.kt:46-60 | each of the thirteen kinds makes exactly one helper call, no two kinds the same one, and every helper call is made by some kind |
| Transitions.NextSeed | app/src/main/java/com/vortexeditor/app/effects/Transitions.kt:88-92 | Random's step keeps the state within 48 bits |
| Transitions.FloatOf | app/src/main/java/com/vortexeditor/app/effects/Transitions.kt:92 | nextFloat lies in [0, 1) |
| Transitions.SeedAfter | app/src/main/java/com/vortexeditor/app/effects/Transitions.kt:88-92 | the state after n draws from Random(42) stays within 48 bits |
| Transitions.Threshold | app/src/main/java/com/vortexeditor/app/effects/Transitions.kt:92 | every threshold lies in [0, 1) |
| Transitions.FirstThreshold | app/src/main/java/com/vortexeditor/app/effects/Transitions.kt:88-92 | the first draw of Random(42) is 12206493 / 2^24 |
| Transitions.DissolveTransition | app/src/main/java/com/vortexeditor/app/effects/Transitions.kt:82-103 | the loops build Dissolved: one draw per pixel in row-major order |
| Transitions.DissolveRow | app/src/main/java/com/vortexeditor/app/effects/Transitions.kt:91-99 | the x loop fills row y by the thresholds and leaves the generator after the row's draws |
| Transitions.DissolveProperties | app/src/main/java/com/vortexeditor/app/effects/Transitions.kt:92-97 | progress at most 0 gives from and at least 1 gives the scaled to; in between each pixel comes from scaledTo exactly when progress exceeds its own threshold |
| Transitions.RevealedEnds | app/src/main/java/com/vortexeditor/app/effects/Transitions.kt:112-128 | at progress 0 no column or row shows to, at progress 1 every one does, in both directions |
| Transitions.RevealedMonotone | app/src/main/java/com/vortexeditor/app/effects/Transitions.kt:112-128 | a column or row that shows to keeps showing it as progress grows |
| Transitions.OverProperties | app/src/main/java/com/vortexeditor/app/effects/Transitions.kt:116-119 | drawing with a null Paint (SRC_OVER) never lowers alpha below the source's, an opaque source replaces what lies beneath, and a stored colour drawn on the blank ARGB_8888 canvas is itself |
| Transitions.WipeShows | app/src/main/java/com/vortexeditor/app/effects/Transitions.kt:105-157 | each pixel of a wipe of stored bitmaps: left to right (top to bottom) the revealed side shows the scaled to and the rest shows from drawn over it; the other way the revealed side shows the scaled to drawn over from and the rest shows from; with opaque frames simply the scaled to on the revealed side and from elsewhere |
| Transitions.WipeEnds | app/src/main/java/com/vortexeditor/app/effects/Transitions.kt:105-157 | a forward wipe at progress 1 is the scaled to and a backward one at progress 0 is from; a forward wipe at progress 0 is from when from is opaque, a backward one at progress 1 is the scaled to when that is opaque |
| Transitions.TranslucentWipeMixes | app/src/main/java/com/vortexeditor/app/effects/Transitions.kt:116-119 | a half-transparent red from wiped left to right at progress 0 over an opaque blue to gives the opaque mix 0xFF80007F, not from |
| Transitions.BlurRadius | app/src/main/java/com/vortexeditor/app/effects/Transitions.kt:259-272 | the radius lies in [1, 20] for any progress |
| Transitions.BlurRadiusProfile | app/src/main/java/com/vortexeditor/app/effects/Transitions.kt:259-272 | the radius is 1 at both ends and 20 at the midpoint, growing through the first half and shrinking through the second |
| Transitions.BlurStep | app/src/main/java/com/vortexeditor/app/effects/Transitions.kt:281 | the block step is at least 1 |
| Transitions.BlockShares | app/src/main/java/com/vortexeditor/app/effects/Transitions.kt:283-310 | every pixel of a step x step block takes the box colour of the block's corner |
| Transitions.FillBlock | app/src/main/java/com/vortexeditor/app/effects/Transitions.kt:303-307 | the fy / fx loops write the colour inside the block, cut at the edges, and nothing else |
| Transitions.SimpleBlur | app/src/main/java/com/vortexeditor/app/effects/Transitions.kt:274-313 | the block loops build SimpleBlurred |
| Transitions.SimpleBlurProperties | app/src/main/java/com/vortexeditor/app/effects/Transitions.kt:274-313 | the result keeps the shape, every pixel is opaque, and a bitmap of one colour keeps its RGB |
| Transitions.ApplyTransition | app/src/main/java/com/vortexeditor/app/effects/Transitions.kt:40-61 | the dispatch returns Transitioned for every kind |
| Transitions.TransitionShape | app/src/main/java/com/vortexeditor/app/effects/Transitions.kt:40-61 | the dissolve, wipe and blur kinds keep from's width and height; blur makes every pixel opaque, and at progress 1 it is the scaled to blurred with radius 1, not the scaled to itself |
| AudioEngine.NewTrack | app/src/main/cpp/engine/audio_engine.cpp:139-145 | the stored track has the new id, the position, volume 1 and is unmuted; with a valid decoder result it is a valid track |
| AudioEngine.NumSamples | app/src/main/cpp/engine/audio_engine.cpp:321 | the count is a multiple of the channel count; it is negative exactly when the wrapped int64 product is -1000000 or less; without overflow it is the truncated quotient times 2 |
| AudioEngine.NumSamplesCounts | app/src/main/cpp/engine/audio_engine.cpp:321 | for a duration of 0 or more that does not overflow, the count is 2 samples per whole 1/44100 s: the frame count times 10^6 brackets duration * 44100 |
| AudioEngine.SampleOffset | app/src/main/cpp/engine/audio_engine.cpp:333-339 | the offset into an audible track is never negative |
| AudioEngine.MixTrack | app/src/main/cpp/engine/audio_engine.cpp:343-347 | one track's pass keeps the buffer's length |
| AudioEngine.MixAll | app/src/main/cpp/engine/audio_engine.cpp:325-348 | the track loop keeps the buffer's length |
| AudioEngine.ScaledBounded | app/src/main/cpp/engine/audio_engine.cpp:342-344 | with volumes in [0, 1] a scaled 16-bit sample stays within [-32768, 32768], so the int32 sum cannot overflow; volume 1 keeps the sample and volume 0 silences it |
| AudioEngine.MixTrackProperties | app/src/main/cpp/engine/audio_engine.cpp:328-347 | every mixed sample stays 16-bit; a muted, silent or out-of-range track leaves the buffer unchanged |
| AudioEngine.MixTrackStaysInside | app/src/main/cpp/engine/audio_engine.cpp:343 | samples past the end of the track's data are untouched |
| AudioEngine.MixTrackCopies | app/src/main/cpp/engine/audio_engine.cpp:339-347 | one audible track at full volume mixed into silence reproduces its samples from the offset on and leaves 0 past its end |
| AudioEngine.MixAllProperties | app/src/main/cpp/engine/audio_engine.cpp:325-348 | the mixed buffer holds 16-bit samples; with no audible track it stays as it started |
| AudioEngine.AudioEngine.constructor | app/src/main/cpp/engine/audio_engine.cpp:5-19 | no tracks, the id counter at 1, master volume 1, position 0, neither initialized nor playing |
| AudioEngine.AudioEngine.Release | app/src/main/cpp/engine/audio_engine.cpp:84-92 | the track table is emptied and the engine not initialized; counter, master volume, position and playing state are kept |
| AudioEngine.AudioEngine.Play | app/src/main/cpp/engine/audio_engine.cpp:111-115 | the engine is playing |
| AudioEngine.AudioEngine.Pause | app/src/main/cpp/engine/audio_engine.cpp:117-121 | the engine is not playing |
| AudioEngine.AudioEngine.Stop | app/src/main/cpp/engine/audio_engine.cpp:123-128 | not playing and the position back at 0 |
| AudioEngine.AudioEngine.SeekTo | app/src/main/cpp/engine/audio_engine.cpp:130-134 | the position is the one given |
| AudioEngine.AudioEngine.AddTrack | app/src/main/cpp/engine/audio_engine.cpp:136-154 | the id counter always moves on, even when decoding fails; only a successful decode stores the new track under the old counter value, which was free |
| AudioEngine.AudioEngine.RemoveTrack | app/src/main/cpp/engine/audio_engine.cpp:156-167 | true exactly when the id was present; the table loses that id and nothing else |
| AudioEngine.AudioEngine.SetVolume | app/src/main/cpp/engine/audio_engine.cpp:169-179 | true exactly when the id is present; then that track's volume is the value clamped to [0, 1], and nothing else changes |
| AudioEngine.AudioEngine.SetMute | app/src/main/cpp/engine/audio_engine.cpp:181-191 | true exactly when the id is present; then only that track's mute flag changes |
| AudioEngine.AudioEngine.SetMasterVolume | app/src/main/cpp/engine/audio_engine.cpp:193-196 | the master volume is the value clamped to [0, 1] |
| AudioEngine.AudioEngine.GetMixedAudio | app/src/main/cpp/engine/audio_engine.cpp:312-351 | no buffer (resize throws) exactly when the sample count is negative; otherwise 44100 Hz stereo at the position's timestamp, holding MixAll of every track over a zeroed buffer |
| AudioEngine.AudioEngine.MixTrackInto | app/src/main/cpp/engine/audio_engine.cpp:343-347 | the sample loop leaves MixTrack of the buffer |
| AudioMixer.NewTrack | app/src/main/java/com/vortexeditor/app/audio/AudioMixer.kt:36-40 | the new track has the id, the start, volume 1, no fades, unmuted and centred |
| AudioMixer.FindIndex | app/src/main/java/com/vortexeditor/app/audio/AudioMixer.kt:69 | a found index holds a track with that id |
| AudioMixer.FindIndexFirst | app/src/main/java/com/vortexeditor/app/audio/AudioMixer.kt:50-69 | find returns the first track with the id, and nothing exactly when no track has it |
| AudioMixer.Without | app/src/main/java/com/vortexeditor/app/audio/AudioMixer.kt:46 | removeAll never lengthens the list |
| AudioMixer.WithoutKeepsOthers | app/src/main/java/com/vortexeditor/app/audio/AudioMixer.kt:45-47 | removeAll keeps exactly the tracks with another id, and an absent id leaves the list as it was |
| AudioMixer.UniqueIdsCons | app/src/main/java/com/vortexeditor/app/audio/AudioMixer.kt:32-41 | a list has unique ids exactly when its tail does and the head's id is not in it |
| AudioMixer.WithoutValid | app/src/main/java/com/vortexeditor/app/audio/AudioMixer.kt:45-47 | removal keeps ids unique and below the counter, and volumes and pans in range |
| AudioMixer.WithoutUnique | app/src/main/java/com/vortexeditor/app/audio/AudioMixer.kt:45-47 | removal keeps the ids unique |
| AudioMixer.MixedInto | app/src/main/java/com/vortexeditor/app/audio/AudioMixer.kt:118-149 | mixing keeps the buffer's length |
| AudioMixer.PanGains | app/src/main/java/com/vortexeditor/app/audio/AudioMixer.kt:139-140 | for a pan in [-1, 1] neither channel's gain exceeds the volume; centred, both are the volume |
| AudioMixer.FadeRamps | app/src/main/java/com/vortexeditor/app/audio/AudioMixer.kt:125-136 | the fades only scale the volume down; the fade-in is silent at the first pair; outside both ramps, or without fades, the volume is the track's own |
| AudioMixer.PairTimeWithin | app/src/main/java/com/vortexeditor/app/audio/AudioMixer.kt:116-122 | every pair's time lies within the track's duration |
| AudioMixer.MixedIntoProperties | app/src/main/java/com/vortexeditor/app/audio/AudioMixer.kt:118-149 | mixing keeps 16-bit samples and touches only the indices from the start sample to the track's end |
| AudioMixer.SampleGainBounded | app/src/main/java/com/vortexeditor/app/audio/AudioMixer.kt:125-140 | with volume at least 0 and pan in [-1, 1] every sample's gain lies between 0 and the track volume |
| AudioMixer.StartAtZero | app/src/main/java/com/vortexeditor/app/audio/AudioMixer.kt:115 | a track starting at 0 ms starts at index 0 |
| AudioMixer.UnitGainCopies | app/src/main/java/com/vortexeditor/app/audio/AudioMixer.kt:143-148 | at unit gain mixing a 16-bit sample into 0 gives the sample |
| AudioMixer.MixedIntoCopies | app/src/main/java/com/vortexeditor/app/audio/AudioMixer.kt:109-150 | a track at volume 1, centred, without fades and starting at 0, mixed into silence, reproduces the samples it covers and leaves the rest 0 |
| AudioMixer.MaxAbs | app/src/main/java/com/vortexeditor/app/audio/AudioMixer.kt:153-157 | the peak is at least 1 |
| AudioMixer.MaxAbsBounds | app/src/main/java/com/vortexeditor/app/audio/AudioMixer.kt:153-157 | the peak bounds the absolute value of every sample and is 1 or one of those values |
| AudioMixer.Normalized | app/src/main/java/com/vortexeditor/app/audio/AudioMixer.kt:152-165 | normalizing keeps the length |
| AudioMixer.Rescaled | app/src/main/java/com/vortexeditor/app/audio/AudioMixer.kt:161-163 | rescaling keeps the length |
| AudioMixer.NormalizedProperties | app/src/main/java/com/vortexeditor/app/audio/AudioMixer.kt:152-165 | on 16-bit input the rescale happens only when some sample is -32768; the absolute value of no sample grows, and every one ends at most 32767 |
| AudioMixer.RescaledDown | app/src/main/java/com/vortexeditor/app/audio/AudioMixer.kt:159-164 | with a peak of 32768 every rescaled sample moves toward 0 and fits in [-32767, 32767] |
| AudioMixer.ScaleDown | app/src/main/java/com/vortexeditor/app/audio/AudioMixer.kt:162 | one sample scaled by 32767 / 32768, truncated and narrowed moves toward 0 and fits |
| AudioMixer.NormalizeBuffer | app/src/main/java/com/vortexeditor/app/audio/AudioMixer.kt:152-165 | the two loops leave Normalized of the buffer |
| AudioMixer.PeakOf | app/src/main/java/com/vortexeditor/app/audio/AudioMixer.kt:153-157 | the first loop returns MaxAbs |
| AudioMixer.Rescale | app/src/main/java/com/vortexeditor/app/audio/AudioMixer.kt:161-163 | the second loop leaves Rescaled of the buffer |
| AudioMixer.LeBytes | app/src/main/java/com/vortexeditor/app/audio/AudioMixer.kt:271-277 | n bytes, each a byte |
| AudioMixer.LeRoundTrip | app/src/main/java/com/vortexeditor/app/audio/AudioMixer.kt:271-277 | the little-endian bytes read back give the value modulo 256^n |
| AudioMixer.ShortRoundTrip | app/src/main/java/com/vortexeditor/app/audio/AudioMixer.kt:275-277 | a 16-bit sample survives shortToBytes and a signed read |
| AudioMixer.SampleBytes | app/src/main/java/com/vortexeditor/app/audio/AudioMixer.kt:263-266 | two bytes per sample |
| AudioMixer.RiffChunk | app/src/main/java/com/vortexeditor/app/audio/AudioMixer.kt:248-250 | the RIFF chunk is 12 bytes |
| AudioMixer.FmtChunk | app/src/main/java/com/vortexeditor/app/audio/AudioMixer.kt:251-258 | the fmt chunk is 24 bytes |
| AudioMixer.DataChunkHeader | app/src/main/java/com/vortexeditor/app/audio/AudioMixer.kt:259-260 | the data header is 8 bytes |
| AudioMixer.WavHeader | app/src/main/java/com/vortexeditor/app/audio/AudioMixer.kt:248-260 | the header is 44 bytes |
| AudioMixer.WavFile | app/src/main/java/com/vortexeditor/app/audio/AudioMixer.kt:241-269 | the file is 44 bytes plus two per sample |
| AudioMixer.WavHeaderFields | app/src/main/java/com/vortexeditor/app/audio/AudioMixer.kt:241-260 | the header's fields read back: tags, RIFF size 36 + 2n and data size 2n modulo 2^32, PCM format 1, channels, rate, byte rate, block align channels * 2, 16 bits |
| AudioMixer.WavSamples | app/src/main/java/com/vortexeditor/app/audio/AudioMixer.kt:262-267 | each sample reads back from its two bytes after the header |
| AudioMixer.SampleBuffer | app/src/main/java/com/vortexeditor/app/audio/AudioMixer.kt:263-266 | the putShort loop fills a fresh buffer with SampleBytes |
| AudioMixer.MixedFileShape | app/src/main/java/com/vortexeditor/app/audio/AudioMixer.kt:81-100 | a negative buffer size fails (NegativeArraySizeException) before any track is read; a written file holds 44 bytes plus two per slot |
| AudioMixer.MixTracksLength | app/src/main/java/com/vortexeditor/app/audio/AudioMixer.kt:87-94 | the track loop keeps the buffer's length |
| AudioMixer.AllMutedIsSilent | app/src/main/java/com/vortexeditor/app/audio/AudioMixer.kt:88 | with every track muted the buffer stays as it was, whatever the decoder returns |
| AudioMixer.AudioMixer.constructor | app/src/main/java/com/vortexeditor/app/audio/AudioMixer.kt:32-33 | no tracks, the id counter at 1 |
| AudioMixer.AudioMixer.AddTrack | app/src/main/java/com/vortexeditor/app/audio/AudioMixer.kt:35-43 | the new track is appended under the old counter value, which moves on by one; the track is returned |
| AudioMixer.AudioMixer.RemoveTrack | app/src/main/java/com/vortexeditor/app/audio/AudioMixer.kt:45-47 | the list becomes Without the id |
| AudioMixer.AudioMixer.SetVolume | app/src/main/java/com/vortexeditor/app/audio/AudioMixer.kt:49-51 | the first track with the id gets the volume clamped to [0, 2]; nothing else changes, and nothing when no track has it |
| AudioMixer.AudioMixer.SetPan | app/src/main/java/com/vortexeditor/app/audio/AudioMixer.kt:53-55 | the first track with the id gets the pan clamped to [-1, 1]; nothing else changes |
| AudioMixer.AudioMixer.SetFadeIn | app/src/main/java/com/vortexeditor/app/audio/AudioMixer.kt:57-59 | the first track with the id gets the fade-in; nothing else changes |
| AudioMixer.AudioMixer.SetFadeOut | app/src/main/java/com/vortexeditor/app/audio/AudioMixer.kt:61-63 | the first track with the id gets the fade-out; nothing else changes |
| AudioMixer.AudioMixer.SetMuted | app/src/main/java/com/vortexeditor/app/audio/AudioMixer.kt:65-67 | the first track with the id gets the mute flag; nothing else changes |
| AudioMixer.AudioMixer.GetTrack | app/src/main/java/com/vortexeditor/app/audio/AudioMixer.kt:69 | a result is a track of the list with that id; none only when no track has it |
| AudioMixer.AudioMixer.MixToFile | app/src/main/java/com/vortexeditor/app/audio/AudioMixer.kt:76-107 | the result is MixedFile: mixed unmuted decodable tracks, normalized, as a WAV file, or failure where the code catches an exception |
| AudioMixer.MixAllTracks | app/src/main/java/com/vortexeditor/app/audio/AudioMixer.kt:87-94 | the loop succeeds exactly when MixTracks does, leaving its buffer |
| AudioMixer.ThrownStaysThrown | app/src/main/java/com/vortexeditor/app/audio/AudioMixer.kt:77-106 | once a track throws, the whole mix fails |
| AudioMixer.MixTrackIntoBuffer | app/src/main/java/com/vortexeditor/app/audio/AudioMixer.kt:109-150 | false exactly when the code throws (a negative first index, or an odd-length track's last pair reached); otherwise the buffer becomes MixedInto |
| AudioMixer.MixPair | app/src/main/java/com/vortexeditor/app/audio/AudioMixer.kt:118-148 | one iteration mixes the left and right sample of the pair |
| AudioEffects.AdjustVolume | app/src/main/java/com/vortexeditor/app/audio/AudioEffects.kt:16-20 | adjustVolume keeps the length |
| AudioEffects.AdjustVolumeProperties | app/src/main/java/com/vortexeditor/app/audio/AudioEffects.kt:16-20 | every sample is 16-bit; volume 1 keeps 16-bit input, volume 0 silences it, and a volume in [0, 1] never raises a magnitude |
| AudioEffects.ScaleTowardZero | app/src/main/java/com/vortexeditor/app/audio/AudioEffects.kt:18 | a 16-bit sample scaled by a factor in [0, 1] and truncated stays 16-bit and no larger in magnitude |
| AudioEffects.ScaledShortShrinks | app/src/main/java/com/vortexeditor/app/audio/AudioEffects.kt:29 | a fade factor in [0, 1] never raises a magnitude, so the toShort cast never wraps |
| AudioEffects.FadedIn | app/src/main/java/com/vortexeditor/app/audio/AudioEffects.kt:25-32 | fadeIn keeps the length |
| AudioEffects.FadeIn | app/src/main/java/com/vortexeditor/app/audio/AudioEffects.kt:25-32 | the copy-then-ramp loop returns a fresh array holding FadedIn |
| AudioEffects.FadeInProperties | app/src/main/java/com/vortexeditor/app/audio/AudioEffects.kt:25-32 | a positive fade silences sample 0; every sample at or past the fade is untouched; a positive fade never raises a 16-bit magnitude |
| AudioEffects.Reverse | app/src/main/java/com/vortexeditor/app/audio/AudioEffects.kt:50-52 | reversing keeps the length |
| AudioEffects.ReverseInvolution | app/src/main/java/com/vortexeditor/app/audio/AudioEffects.kt:50-52 | reversing twice gives the samples back, and reversing keeps the multiset of samples |
| AudioEffects.ChangeSpeed | app/src/main/java/com/vortexeditor/app/audio/AudioEffects.kt:57-63 | the array constructor throws exactly when the Float quotient size / speed truncates below 0; otherwise the result has that length |
| AudioEffects.ChangeSpeedProperties | app/src/main/java/com/vortexeditor/app/audio/AudioEffects.kt:57-63 | every output sample is an input sample; speed 1 returns the input; empty input gives empty output; a positive speed never throws; speed 0 asks for Int.MAX_VALUE samples; a negative speed no larger in magnitude than the input's size throws |
| AudioEffects.Echoed | app/src/main/java/com/vortexeditor/app/audio/AudioEffects.kt:68-75 | a result exactly for a delay of 0 or more (a negative delay indexes below 0 and throws), of the input's length |
| AudioEffects.Echo | app/src/main/java/com/vortexeditor/app/audio/AudioEffects.kt:68-75 | the loop returns Echoed |
| AudioEffects.EchoProperties | app/src/main/java/com/vortexeditor/app/audio/AudioEffects.kt:68-75 | the first delaySamples samples are kept, the rest are 16-bit, and decay 0 keeps 16-bit input |
| AudioEffects.FirstLoud | app/src/main/java/com/vortexeditor/app/audio/AudioEffects.kt:157-159 | the forward scan stops at the first sample with magnitude at least the threshold, or at the end |
| AudioEffects.LastLoud | app/src/main/java/com/vortexeditor/app/audio/AudioEffects.kt:162-164 | the backward scan stops at the last loud sample above start, or at start |
| AudioEffects.TrimmedProperties | app/src/main/java/com/vortexeditor/app/audio/AudioEffects.kt:152-167 | the result is a slice of the input, empty exactly when no sample is loud, otherwise starting and ending loud with every loud sample inside it |
| AudioEffects.TrimSilence | app/src/main/java/com/vortexeditor/app/audio/AudioEffects.kt:152-167 | the two scans and copyOfRange return Trimmed |
| AudioEffects.NoiseGate | app/src/main/java/com/vortexeditor/app/audio/AudioEffects.kt:218-222 | the gate keeps the length |
| AudioEffects.NoiseGateProperties | app/src/main/java/com/vortexeditor/app/audio/AudioEffects.kt:218-222 | quiet samples become 0 and loud ones are kept; a threshold of 0 or less changes nothing; gating twice adds nothing |
| AudioEffects.Compress | app/src/main/java/com/vortexeditor/app/audio/AudioEffects.kt:227-242 | compress keeps the length |
| AudioEffects.CompressProperties | app/src/main/java/com/vortexeditor/app/audio/AudioEffects.kt:227-242 | for 16-bit input, threshold in [0, 1] and ratio at least 1: samples at or below the threshold value are kept, the others lose magnitude without changing side of zero and stay at or above the threshold value |
| AudioEffects.CompressByZeroRatio | app/src/main/java/com/vortexeditor/app/audio/AudioEffects.kt:234-237 | with ratio 0 a loud sample becomes threshold - 1 with its own sign (the Int sum wraps before the Short cast) |
| VoiceRecorder.PeakBounds | app/src/main/java/com/vortexeditor/app/audio/VoiceRecorder.kt:96-100 | the peak of a read of 16-bit samples bounds every magnitude, is one of them when the read is not empty, and lies in [0, 32768] |
| VoiceRecorder.PeakAmplitude | app/src/main/java/com/vortexeditor/app/audio/VoiceRecorder.kt:96-100 | the amplitude loop returns Peak over the samples read |
| VoiceRecorder.WriteWavFile | app/src/main/java/com/vortexeditor/app/audio/VoiceRecorder.kt:151-180 | the file is the mono 44100 Hz 16-bit WAV of the samples |
| VoiceRecorder.StartRecording | app/src/main/java/com/vortexeditor/app/audio/VoiceRecorder.kt:56-123 | the emitted states are RecordingFlow; a file is written exactly when permission was granted, the recorder initialised and writing did not throw, and it holds every collected sample |
| VoiceRecorder.NoPermissionSingleError | app/src/main/java/com/vortexeditor/app/audio/VoiceRecorder.kt:57-60 | without permission the flow is exactly one Error |
| VoiceRecorder.UpdatesArePeaks | app/src/main/java/com/vortexeditor/app/audio/VoiceRecorder.kt:86-103 | one update per non-empty read at most, each an amplitude in [0, 32768] |
| VoiceRecorder.RecordedSamples | app/src/main/java/com/vortexeditor/app/audio/VoiceRecorder.kt:91-93 | each collected sample, in order, reads back from its two bytes in the file |
| VoiceRecorder.MonoHeader | app/src/main/java/com/vortexeditor/app/audio/VoiceRecorder.kt:151-171 | one channel, 44100 Hz, byte rate 88200, block align 2, 16 bits, RIFF size 36 + 2n and data size 2n |
| BackgroundRemover.MaskScale | app/src/main/java/com/vortexeditor/app/ml/BackgroundRemover.kt:121-122 | the mask-to-bitmap scale is positive |
| BackgroundRemover.MaskCoord | app/src/main/java/com/vortexeditor/app/ml/BackgroundRemover.kt:126-127 | the mask coordinate is clamped into [0, maskSize) |
| BackgroundRemover.MaskIndex | app/src/main/java/com/vortexeditor/app/ml/BackgroundRemover.kt:126-128 | maskY * maskWidth + maskX is always a valid index into the mask |
| BackgroundRemover.SameSizeMaskCoord | app/src/main/java/com/vortexeditor/app/ml/BackgroundRemover.kt:121-127 | a mask of the bitmap's own size is read pixel for pixel |
| BackgroundRemover.MaskCoordMonotone | app/src/main/java/com/vortexeditor/app/ml/BackgroundRemover.kt:126-127 | pixels further right or down never read further left or up in the mask |
| BackgroundRemover.ApplyMaskWithBackground | app/src/main/java/com/vortexeditor/app/ml/BackgroundRemover.kt:110-144 | the loops build Masked with the given colour |
| BackgroundRemover.ApplyMask | app/src/main/java/com/vortexeditor/app/ml/BackgroundRemover.kt:28-31 | removeBackground's applyMask builds Masked with Color.TRANSPARENT |
| BackgroundRemover.MaskedProperties | app/src/main/java/com/vortexeditor/app/ml/BackgroundRemover.kt:97-101 | each pixel is the original or the background colour; a mask confident (> 0.5) everywhere keeps the bitmap, one confident nowhere leaves only the background |
| BackgroundRemover.MixChannel | app/src/main/java/com/vortexeditor/app/ml/BackgroundRemover.kt:196-198 | the blended channel lies between the two inputs, alpha 1 gives the foreground's and alpha 0 the background's |
| BackgroundRemover.BlendPixels | app/src/main/java/com/vortexeditor/app/ml/BackgroundRemover.kt:185-201 | the blend is opaque, each channel between foreground's and background's; confidence 1 or more gives the foreground colour, 0 or less the background colour |
| BackgroundRemover.CompositeWithBackground | app/src/main/java/com/vortexeditor/app/ml/BackgroundRemover.kt:146-183 | the loops build Composited over the background scaled to the foreground's size |
| BackgroundRemover.CompositedProperties | app/src/main/java/com/vortexeditor/app/ml/BackgroundRemover.kt:146-183 | the composite keeps the shape and is opaque; a mask sure of the foreground everywhere shows the foreground, one sure of the background everywhere the background |
| BackgroundRemover.UnitStepTaps | app/src/main/java/com/vortexeditor/app/ml/BackgroundRemover.kt:216-217 | -radius..radius has 2 radius + 1 taps |
| BackgroundRemover.BlurBitmap | app/src/main/java/com/vortexeditor/app/ml/BackgroundRemover.kt:203-233 | the loops return BoxBlurred: the blurred bitmap, or the division by zero of a negative radius |
| BackgroundRemover.BoxBlurredProperties | app/src/main/java/com/vortexeditor/app/ml/BackgroundRemover.kt:203-233 | with radius 0 or more the blur succeeds, keeps the shape, makes every pixel opaque and keeps the colour of a uniform bitmap; radius 0 copies each pixel's RGB |
| BackgroundRemover.BlurredPixelFacts | app/src/main/java/com/vortexeditor/app/ml/BackgroundRemover.kt:209-228 | one blurred pixel is opaque, a uniform bitmap's colour, and the pixel itself at radius 0 |
| BackgroundRemover.BlurBackgroundKeepsForeground | app/src/main/java/com/vortexeditor/app/ml/BackgroundRemover.kt:52-56 | where the mask is sure of the foreground everywhere, blurBackground shows the bitmap itself, made opaque |
| TextOverlays.NewOverlay | app/src/main/java/com/vortexeditor/app/text/TextOverlay.kt:242-249 | the overlay has the id, text, position and start, the data class defaults (size 48, alpha 1, no animation, 500 ms), and end = start + duration in wrapping Long arithmetic |
| TextOverlays.EntryProgress | app/src/main/java/com/vortexeditor/app/text/TextOverlay.kt:216-219 | entry progress lies in [0, 1]; with a zero duration it is 1 exactly when the elapsed time is positive |
| TextOverlays.ExitProgress | app/src/main/java/com/vortexeditor/app/text/TextOverlay.kt:221-224 | exit progress lies in [0, 1]; with a zero duration it is 0 exactly when time remains |
| TextOverlays.ProgressEnds | app/src/main/java/com/vortexeditor/app/text/TextOverlay.kt:216-224 | entry progress is 0 at the start and exit progress 1 at the end; with a positive duration entry reaches 1 after that duration and exit stays 0 until that duration before the end |
| TextOverlays.DrawAlpha | app/src/main/java/com/vortexeditor/app/text/TextOverlay.kt:88-105 | the fades scale the overlay's alpha and other kinds keep it, so it stays between 0 and the overlay's alpha |
| TextOverlays.DrawAlphaEnds | app/src/main/java/com/vortexeditor/app/text/TextOverlay.kt:94-105 | fade-in starts invisible and fade-out ends invisible |
| TextOverlays.Take | app/src/main/java/com/vortexeditor/app/text/TextOverlay.kt:126 | take(n) is the first min(n, length) characters |
| TextOverlays.TypewriterCount | app/src/main/java/com/vortexeditor/app/text/TextOverlay.kt:125 | the character count lies between 0 and the length |
| TextOverlays.TypewriterText | app/src/main/java/com/vortexeditor/app/text/TextOverlay.kt:124-127 | the typewriter shows a prefix of the text of TypewriterCount characters |
| TextOverlays.TypewriterEnds | app/src/main/java/com/vortexeditor/app/text/TextOverlay.kt:124-127 | nothing at progress 0, the whole text at progress 1 |
| TextOverlays.RenderDraw | app/src/main/java/com/vortexeditor/app/text/TextOverlay.kt:76-133 | a draw carries NaN exactly when a zero duration meets the 0 / 0 of the progress its animation reads |
| TextOverlays.AnimationsArrive | app/src/main/java/com/vortexeditor/app/text/TextOverlay.kt:93-133 | once the entry animation is over every kind but the bounce draws the full text, full size, at its place |
| TextOverlays.ZeroDurationSkips | app/src/main/java/com/vortexeditor/app/text/TextOverlay.kt:216-224 | a zero animation duration skips the animation: strictly inside the time range every kind but the bounce draws the full text at its place with the overlay's alpha |
| TextOverlays.ZeroDurationEdges | app/src/main/java/com/vortexeditor/app/text/TextOverlay.kt:216-224 | with a zero duration the first and last instants draw a NaN for the kinds reading that progress; a fade then paints alpha 0, and the typewriter shows nothing at the start |
| TextOverlays.Render | app/src/main/java/com/vortexeditor/app/text/TextOverlay.kt:66-74 | an overlay outside [start, end] leaves the drawing as it was; a visible one adds its draw |
| TextOverlays.Insert | app/src/main/java/com/vortexeditor/app/text/TextOverlay.kt:210 | inserting adds exactly the one overlay |
| TextOverlays.SortById | app/src/main/java/com/vortexeditor/app/text/TextOverlay.kt:210 | sortedBy keeps every overlay, as a multiset |
| TextOverlays.SortByIdSorted | app/src/main/java/com/vortexeditor/app/text/TextOverlay.kt:210 | sortedBy orders by id and is a permutation |
| TextOverlays.SortByIdOfAscending | app/src/main/java/com/vortexeditor/app/text/TextOverlay.kt:210 | a list already ascending by id is its own sort |
| TextOverlays.RenderAll | app/src/main/java/com/vortexeditor/app/text/TextOverlay.kt:204-214 | the loop renders each overlay, in ascending id order, onto the result of the previous one |
| TextOverlays.TextOverlayManager.constructor | app/src/main/java/com/vortexeditor/app/text/TextOverlay.kt:231-233 | no overlays, the id counter at 1 |
| TextOverlays.TextOverlayManager.AddText | app/src/main/java/com/vortexeditor/app/text/TextOverlay.kt:235-252 | the new overlay, under the old counter value, is appended and returned, and getOverlay then finds it |
| TextOverlays.TextOverlayManager.UpdateText | app/src/main/java/com/vortexeditor/app/text/TextOverlay.kt:254-256 | the first overlay with the id gets the text; an unknown id changes nothing |
| TextOverlays.TextOverlayManager.RemoveText | app/src/main/java/com/vortexeditor/app/text/TextOverlay.kt:258-260 | every overlay with the id goes, the others stay in order, and getOverlay no longer finds the id |
| TextOverlays.TextOverlayManager.GetOverlay | app/src/main/java/com/vortexeditor/app/text/TextOverlay.kt:262 | an overlay comes back exactly when one has the id, and it is one of the list's with that id |
| TextOverlays.TextOverlayManager.RenderFrame | app/src/main/java/com/vortexeditor/app/text/TextOverlay.kt:266-268 | the frame gets the overlays' draws in the order they were added, which is ascending id order |
| TextOverlays.TextOverlayManager.Clear | app/src/main/java/com/vortexeditor/app/text/TextOverlay.kt:270-272 | no overlays remain |
| Stickers.NewSticker | app/src/main/java/com/vortexeditor/app/stickers/StickerManager.kt:71-77 | the sticker has the id, bitmap and place, and the data class defaults: scale 1, rotation 0, alpha 1, shown from 0 to Long.MAX_VALUE, no animation, 500 ms |
| Stickers.EntryProgress | app/src/main/java/com/vortexeditor/app/stickers/StickerManager.kt:244-247 | entry progress lies in [0, 1]; with a zero duration it is 1 exactly when the elapsed time is positive |
| Stickers.ExitProgress | app/src/main/java/com/vortexeditor/app/stickers/StickerManager.kt:249-252 | exit progress lies in [0, 1]; with a zero duration it is 0 exactly when time remains |
| Stickers.ProgressEnds | app/src/main/java/com/vortexeditor/app/stickers/StickerManager.kt:244-252 | entry progress is 0 at the start and exit progress 1 at the end; with a positive duration entry reaches 1 after that duration and exit stays 0 until that duration before the end |
| Stickers.EaseEnds | app/src/main/java/com/vortexeditor/app/stickers/StickerManager.kt:254-264 | both easing curves run from 0 at t = 0 to 1 at t = 1 |
| Stickers.EaseMirror | app/src/main/java/com/vortexeditor/app/stickers/StickerManager.kt:254-264 | easeOutBack(t) = 1 - easeInBack(1 - t) |
| Stickers.DrawAlpha | app/src/main/java/com/vortexeditor/app/stickers/StickerManager.kt:160-174 | the fades scale the sticker's alpha and every other kind keeps it, so it stays between 0 and the sticker's alpha |
| Stickers.DrawFor | app/src/main/java/com/vortexeditor/app/stickers/StickerManager.kt:158-206 | a draw carries NaN exactly when a zero duration meets the 0 / 0 of the progress its animation reads |
| Stickers.AnimationEnds | app/src/main/java/com/vortexeditor/app/stickers/StickerManager.kt:167-196 | POP_IN grows from nothing to the sticker's scale, POP_OUT shrinks from it to nothing, SPIN turns one full circle, FADE_IN starts and FADE_OUT ends invisible |
| Stickers.StillSticker | app/src/main/java/com/vortexeditor/app/stickers/StickerManager.kt:160-200 | without an animation a sticker draws at its place with its own scale, rotation and alpha |
| Stickers.ZeroDurationSkips | app/src/main/java/com/vortexeditor/app/stickers/StickerManager.kt:244-252 | a zero duration skips the animation strictly inside the time range; at the first and last instants the kinds reading that progress draw a NaN, and a fade then paints alpha 0 |
| Stickers.VisibleAt | app/src/main/java/com/vortexeditor/app/stickers/StickerManager.kt:153-156 | the visible stickers are exactly those whose range holds the time |
| Stickers.DrawsAreVisible | app/src/main/java/com/vortexeditor/app/stickers/StickerManager.kt:153-223 | one draw per visible sticker, each that sticker's draw, in list order |
| Stickers.OnlyWithId | app/src/main/java/com/vortexeditor/app/stickers/StickerManager.kt:71-80 | with ids ascending, the sticker at k is the only one with its id |
| Stickers.FreshIdAppends | app/src/main/java/com/vortexeditor/app/stickers/StickerManager.kt:71-80 | a sticker under the counter's id goes after every other and is the one find returns |
| Stickers.StickerManager.constructor | app/src/main/java/com/vortexeditor/app/stickers/StickerManager.kt:39-40 | no stickers, the id counter at 1 |
| Stickers.StickerManager.AddSticker | app/src/main/java/com/vortexeditor/app/stickers/StickerManager.kt:71-80 | the new sticker, under the old counter value, is appended and returned, and getSticker then finds it |
| Stickers.StickerManager.RemoveSticker | app/src/main/java/com/vortexeditor/app/stickers/StickerManager.kt:85-88 | every sticker with the id goes, the others stay in order |
| Stickers.StickerManager.UpdatePosition | app/src/main/java/com/vortexeditor/app/stickers/StickerManager.kt:93-98 | the sticker with the id moves to (x, y); nothing else changes |
| Stickers.StickerManager.UpdateScale | app/src/main/java/com/vortexeditor/app/stickers/StickerManager.kt:103-105 | the sticker with the id gets the scale coerced into [0.1, 5]; nothing else changes |
| Stickers.StickerManager.UpdateRotation | app/src/main/java/com/vortexeditor/app/stickers/StickerManager.kt:110-112 | the sticker with the id gets the rotation; nothing else changes |
| Stickers.StickerManager.SetTimeRange | app/src/main/java/com/vortexeditor/app/stickers/StickerManager.kt:117-122 | the sticker with the id shows from startMs to endMs; nothing else changes |
| Stickers.StickerManager.SetAnimation | app/src/main/java/com/vortexeditor/app/stickers/StickerManager.kt:127-132 | the sticker with the id gets the animation and its duration; nothing else changes |
| Stickers.StickerManager.GetSticker | app/src/main/java/com/vortexeditor/app/stickers/StickerManager.kt:86 | stickers.find: a sticker comes back exactly when one has the id, and it is in the list |
| Stickers.StickerManager.RenderFrame | app/src/main/java/com/vortexeditor/app/stickers/StickerManager.kt:147-226 | the frame gets each visible sticker's draw, in list order |
| Stickers.StickerManager.Clear | app/src/main/java/com/vortexeditor/app/stickers/StickerManager.kt:266-269 | no stickers remain |
| TimelineWidget.TracksApart | app/src/main/java/com/vortexeditor/app/ui/components/TimelineView.kt:230-232 | the bands of two tracks are apart by at least the spacing |
| TimelineWidget.OneTrackAt | app/src/main/java/com/vortexeditor/app/ui/components/TimelineView.kt:256-268 | a y coordinate lies in the band of at most one track, so findClipAt's band test picks one track |
| TimelineWidget.MaxEndIsMax | app/src/main/java/com/vortexeditor/app/ui/components/TimelineView.kt:335-342 | the maximum is at least 60000, at least every clip's end, and 60000 or one of the ends |
| TimelineWidget.MaxEndOfFilter | app/src/main/java/com/vortexeditor/app/ui/components/TimelineView.kt:315-318 | removing clips never raises the maximum end |
| TimelineWidget.DraggedStart | app/src/main/java/com/vortexeditor/app/ui/components/TimelineView.kt:286-288 | the dragged start is never negative, and is the start plus the dragged time when that is not |
| TimelineWidget.LastHitIsNewest | app/src/main/java/com/vortexeditor/app/ui/components/TimelineView.kt:256-268 | scanning reversed finds a hit clip with no hit clip after it, or no clip is hit |
| TimelineWidget.MoveFirst | app/src/main/java/com/vortexeditor/app/ui/components/TimelineView.kt:290 | a move keeps the list's length |
| TimelineWidget.MoveFirstChanges | app/src/main/java/com/vortexeditor/app/ui/components/TimelineView.kt:290 | a drag changes only the start of the first clip with the dragged id, to a time of 0 or more |
| TimelineWidget.TimelineView.constructor | app/src/main/java/com/vortexeditor/app/ui/components/TimelineView.kt:32-36 | no clips, 60000 ms, position 0, 0.1 px/ms, no scroll, no selection, not dragging |
| TimelineWidget.TimelineView.UpdateTotalDuration | app/src/main/java/com/vortexeditor/app/ui/components/TimelineView.kt:335-342 | the total is PaddedTotal: the largest of 60000 and the clip ends, plus 10 s |
| TimelineWidget.TimelineView.AddClip | app/src/main/java/com/vortexeditor/app/ui/components/TimelineView.kt:309-313 | the clip is appended and the total recomputed |
| TimelineWidget.TimelineView.RemoveClip | app/src/main/java/com/vortexeditor/app/ui/components/TimelineView.kt:315-320 | every clip with the id goes, a selection of it is cleared, the total is recomputed |
| TimelineWidget.TimelineView.SetCurrentPosition | app/src/main/java/com/vortexeditor/app/ui/components/TimelineView.kt:322-326 | the position is coerced into [0, total]; coerceIn throws exactly when the total is negative, and then nothing changes |
| TimelineWidget.TimelineView.SetTotalDuration | app/src/main/java/com/vortexeditor/app/ui/components/TimelineView.kt:328-331 | the total is taken as given |
| TimelineWidget.TimelineView.FindClipAt | app/src/main/java/com/vortexeditor/app/ui/components/TimelineView.kt:256-268 | the clip found is the newest one whose band and span hold the point at the time under x |
| TimelineWidget.TimelineView.HandleTap | app/src/main/java/com/vortexeditor/app/ui/components/TimelineView.kt:234-247 | a tap on a clip selects it and leaves the playhead; a tap on empty space clears the selection and moves the playhead to the tapped time, clamped |
| TimelineWidget.TimelineView.TouchDown | app/src/main/java/com/vortexeditor/app/ui/components/TimelineView.kt:275-283 | a press on the selected clip starts dragging it from its start; otherwise nothing changes |
| TimelineWidget.TimelineView.TouchMove | app/src/main/java/com/vortexeditor/app/ui/components/TimelineView.kt:284-293 | while dragging, the first clip with the dragged id moves to DraggedStart; otherwise the clips are untouched |
| TimelineWidget.TimelineView.TouchUp | app/src/main/java/com/vortexeditor/app/ui/components/TimelineView.kt:294-302 | dragging ends; a drag of a clip still in the list reports its id and start |
| TimelineWidget.TimelineView.Zoom | app/src/main/java/com/vortexeditor/app/ui/components/TimelineView.kt:115-120 | the zoom is multiplied by the factor and kept in [0.01, 1]: unchanged product inside, the bound outside |
| TimelineWidget.TimelineView.Scroll | app/src/main/java/com/vortexeditor/app/ui/components/TimelineView.kt:104-111 | unless dragging, the offset moves by distanceX, never below 0 and never past the end unless that end is below 0 |
| Export.Rate | app/src/main/java/com/vortexeditor/app/export/VideoExporter.kt:244-250 | base bitrate times the quality factor is positive |
| Export.AtFrameRate | app/src/main/java/com/vortexeditor/app/export/VideoExporter.kt:250 | scaling by fps / 30 keeps a non-negative rate non-negative |
| Export.CalculateBitrate | app/src/main/java/com/vortexeditor/app/export/VideoExporter.kt:244-251 | the bitrate is an Int (toInt saturates) and is not negative for a frame rate of 0 or more |
| Export.BitrateAtThirtyFps | app/src/main/java/com/vortexeditor/app/export/VideoExporter.kt:244-251 | at 30 fps LOW is half the base, MEDIUM the base and HIGH twice the base |
| Export.BitrateMonotone | app/src/main/java/com/vortexeditor/app/export/VideoExporter.kt:244-251 | a higher quality or frame rate never lowers the bitrate |
| Export.BitrateSaturates | app/src/main/java/com/vortexeditor/app/export/VideoExporter.kt:250 | 4K HIGH at 1000 fps saturates at Int.MAX_VALUE |
| Export.FirstOfKindIsFirst | app/src/main/java/com/vortexeditor/app/export/VideoExporter.kt:75-84 | the index is -1 exactly when no track is of the kind, otherwise the first that is |
| Export.VideoAndAudioDiffer | app/src/main/java/com/vortexeditor/app/export/VideoExporter.kt:79-83 | the video and audio tracks found are different tracks |
| Export.SelectTracks | app/src/main/java/com/vortexeditor/app/export/VideoExporter.kt:72-84 | the loop returns the first video and the first audio track, skipping tracks without a mime type |
| Export.PacketProgress | app/src/main/java/com/vortexeditor/app/export/VideoExporter.kt:181 | a zero duration gives +∞, -∞ or NaN by the sign of pts; for pts within a positive duration the percentage lies in [10, 90] |
| Export.RunLength | app/src/main/java/com/vortexeditor/app/export/VideoExporter.kt:184-186 | the loop handles at most the outputs it is given |
| Export.RunLengthStops | app/src/main/java/com/vortexeditor/app/export/VideoExporter.kt:125-186 | the loop stops at the first end of stream; the stream ends (EndsStream) exactly when the last output handled carries the flag, and without one every output given is handled and the loop is still polling |
| Export.EndsStreamSomewhere | app/src/main/java/com/vortexeditor/app/export/VideoExporter.kt:184-186 | the stream ends exactly when some encoder output carries the end-of-stream flag |
| Export.RunExport | app/src/main/java/com/vortexeditor/app/export/VideoExporter.kt:57-237 | the method emits ExportEvents and drives the muxer as ExportLog, including the runs that hang in the video loop (ExportOutcome, StallSequence) |
| Export.Finish | app/src/main/java/com/vortexeditor/app/export/VideoExporter.kt:96-232 | from the muxer on, it emits FinishEvents and makes the requests of FinishLog; when the video loop stalls it stops after the loop's own reports and requests, with no Progress(90), no audio copy and no release |
| Export.CopyAndRelease | app/src/main/java/com/vortexeditor/app/export/VideoExporter.kt:191-232 | after a video loop that saw its end of stream, it emits AfterEncoding: the audio copy, the cleanup and the outcome |
| Export.EncodeLoop | app/src/main/java/com/vortexeditor/app/export/VideoExporter.kt:125-189 | the video loop throws exactly when an exception cuts it short, stalls (polls on without an exit) exactly when neither an exception nor an end of stream ends it, and emits and writes for each handled output |
| Export.LoopExitEndsStream | app/src/main/java/com/vortexeditor/app/export/VideoExporter.kt:125-186 | the loop leaves with sawOutputEOS set exactly when the stream ends |
| Export.CopyAudioSamples | app/src/main/java/com/vortexeditor/app/export/VideoExporter.kt:205-213 | the copy stops at the first read with a negative size; every sample read before it is written, empty ones included, until one of them throws |
| Export.AudioRunStops | app/src/main/java/com/vortexeditor/app/export/VideoExporter.kt:206-207 | the samples copied are exactly those before the first negative read size, all of them non-negative |
| Export.EncodeEventsReport | app/src/main/java/com/vortexeditor/app/export/VideoExporter.kt:181-182 | every handled output reports 10 + pts / duration x 80, in order |
| Export.VideoWritesNonEmpty | app/src/main/java/com/vortexeditor/app/export/VideoExporter.kt:174-176 | only non-empty outputs are written, each as a video sample |
| Export.AudioWritesOnly | app/src/main/java/com/vortexeditor/app/export/VideoExporter.kt:211 | one audio write per sample read, with its size |
| Export.NoVideoTrack | app/src/main/java/com/vortexeditor/app/export/VideoExporter.kt:86-89 | without a video track: Preparing, Progress(5), Error("No video track found") and no muxer request |
| Export.SuccessSequence | app/src/main/java/com/vortexeditor/app/export/VideoExporter.kt:61-232 | without an exception and with an encoder stream that ends: Preparing, 5, 10, one report per handled output, 90, 95, 100 and Completed |
| Export.StallSequence | app/src/main/java/com/vortexeditor/app/export/VideoExporter.kt:61-189 | without an exception and with an encoder stream that never ends: Preparing, 5, 10 and one report per encoder output, then nothing; the log is the video loop's own, started and never released |
| Export.AfterEncodingOutcome | app/src/main/java/com/vortexeditor/app/export/VideoExporter.kt:191-236 | after the video loop: nothing when it stalls; otherwise progress reports in [5, 100], then a last event that is not progress: Completed or the exception's message |
| Export.FinishOutcome | app/src/main/java/com/vortexeditor/app/export/VideoExporter.kt:96-236 | after Progress(10): when the video loop stalls, one progress report per encoder output and nothing more; otherwise progress reports, then Completed or the exception's message |
| Export.ExportOutcome | app/src/main/java/com/vortexeditor/app/export/VideoExporter.kt:57-237 | the flow opens with Preparing and reports progress; the last event is a progress report exactly when the flow hangs in the video loop, and otherwise the one outcome: Completed exactly when it succeeds, the missing-track error, or the exception's message (or "Export failed") |
| Export.FinishInRange | app/src/main/java/com/vortexeditor/app/export/VideoExporter.kt:181-231 | with every pts within a positive duration every report after Progress(10) lies in [5, 100] |
| Export.ZeroDurationProgress | app/src/main/java/com/vortexeditor/app/export/VideoExporter.kt:181 | with a zero duration the first encoding report is +∞ or NaN (NaN for pts 0) and leaves [5, 100] |
| Export.ProgressInRange | app/src/main/java/com/vortexeditor/app/export/VideoExporter.kt:66-231 | with every pts within a positive duration every reported percentage lies in [5, 100] |
| Export.EncodeLogShape | app/src/main/java/com/vortexeditor/app/export/VideoExporter.kt:168-176 | the video loop starts the muxer once, right after adding the video track and before any video write, and releases nothing |
| Export.AudioLogShape | app/src/main/java/com/vortexeditor/app/export/VideoExporter.kt:199-213 | the audio copy adds the track first, then writes samples, none with a negative size, and nothing else |
| Export.MuxerDiscipline | app/src/main/java/com/vortexeditor/app/export/VideoExporter.kt:99-236 | every export keeps that discipline, and the muxer and codecs are released exactly when the flow passes the cleanup, which needs an end of stream; a completed export has released them |
| Export.StartBeforeAudioTrack | app/src/main/java/com/vortexeditor/app/export/VideoExporter.kt:168-200 | in every export the audio track is added only after the video track was added and the muxer started |

## Left out

Numbers:
- Floating point: Kotlin `Float` and C++ `float` values are exact `real`s. float32 rounding is not modelled, and neither are signed zero or subnormals. NaN and ±Infinity are modelled only where a division by zero can reach them, as a flag or a `Percent` value.
- ColorFilter.GrayscaleKeepsGray: holds over the reals; with float32 rounding a grey pixel of 37 becomes 36. The same holds for the grey clause of ColorFilter.GrayInRange and the last clause of ColorFilter.GrayscaleProperties.
- SharpenFilter.SharpenFlatNeighbourhood: holds over the reals; in float32, intensity 0.1 on a flat neighbourhood of value 1 gives 0.
- FrameBuffer.PlacementFillsOneSide: holds over the reals; in float32 a 41×41 source placed into a destination of width 1 gets width 0.
- BackgroundRemover.MixChannel: the bound `min(fg, bg) <= v <= max(fg, bg)` holds over the reals; in float32, fg = bg = 3 with alpha 0.007 gives 2.
- Export.CalculateBitrate: computes over the reals; for UHD 4K at HIGH quality and 25 fps the float32 program gives 58333332 where the model gives 58333333.
- ImageUtils.SourceCoordFloor: states the exact quotient `x * w / newWidth`; float rounding of `x * scaleX` is not modelled. The same holds for ImageUtils.ResizePixel.
- TextOverlays.TypewriterCount: counts characters of `seq<char>`; Kotlin's `String.length` counts UTF-16 code units, so a character outside the Basic Multilingual Plane counts twice in the source.
- BackgroundRemover.BlurBitmap: requires radius ≤ 1450. Above that bound the `Int` channel sums of a 255-valued bitmap can wrap, and `Color.rgb` does not mask the wrapped value, so the model does not cover those radii.
- SharpenFilter.UnsharpMask: requires a radius whose truncation is non-negative. For a negative one the source's blur pass divides by a zero count.
- BlurFilter.GaussianBlur: requires radius ≤ 0 and models only the guard that returns the frame unchanged; the float Gaussian kernel past it is not modelled.
- BlurFilter.MotionBlur: requires distance ≤ 0 and models only the guard that returns the frame unchanged; the float sampling past it is not modelled.
- FrameBuffer.FrameBuffer.Blend: takes any alpha. Where a mixed value falls outside [0, 256), the C++ float-to-uint8 cast is undefined; the model keeps the truncated value there. FrameBuffer.BlendedBytesWhereDefined covers the alphas for which every cast is defined.
- SharpenFilter.BlurredCopy: runs BlurFilter's two passes, which average alpha, and then puts the frame's alpha bytes back. unsharpMask's own passes copy alpha instead. The buffer that results is the same, but the alpha bytes of the intermediate `temp` buffer differ.
- ImageUtils.Rotated90, ImageUtils.Rotated180 and ImageUtils.Rotated270 require a frame with non-negative sides, so frames with a negative side are not covered. With one negative side the source's `data.resize` throws. With two, its loops do not run and the result holds w × h × 4 zero bytes.
- FrameBuffer.FrameBuffer.Composite: requires both buffers to hold width × height × 4 bytes, which the source assumes of `VideoFrame` without checking.
- The `>>` on possibly negative sums in `rgbaToYuv420` is modelled as an arithmetic shift (floor division by 256). C++17 leaves that implementation-defined.
- TimeUtils.ParseTime: reads each "%d" field as an unbounded integer. In C++ a field outside the `int` range is undefined behaviour in `sscanf`, so the model's value there is one possible outcome only. For fields inside the `int` range the `int64_t` sum cannot overflow, and the model's value is exact.
- MemoryPool.MemoryPool.constructor: `blockSize * numBlocks` is a `size_t` product that wraps modulo 2^64 in the source; the model's product is unbounded. A wrapped product would give a pool smaller than its blocks, which the model does not capture.
- Transitions.WipeEnds, Transitions.ApplyTransition: the wipes are the source's two clipped `drawBitmap` calls with SRC_OVER (Transitions.SrcOver), computed on unpremultiplied channels with truncating division. Skia's premultiplied storage and rounding can differ from that by a step on translucent pixels. A wipe starts at `from` (left to right, top to bottom) or ends at `to` (the other directions) only where that frame is opaque, because a translucent one is mixed with the frame beneath it (Transitions.TranslucentWipeMixes).
- Id counters (timeline clips, filters, tracks, overlays, stickers) are unbounded integers; their 32-bit or 64-bit wrap is not modelled.
- Memory exhaustion is not modelled: `changeSpeed` at speed 0 on a non-empty array asks for `Int.MAX_VALUE` samples, which the model returns as a length rather than an `OutOfMemoryError`.

Objects and concurrency:
- Locking and logging: the `std::mutex` that audio_engine.cpp, timeline.cpp, frame_buffer.cpp, filter_manager.cpp and memory_pool.cpp take, and every log call, are left out; each method is modelled as one atomic step.
- Aliasing: `addText`, `getOverlay` and `addSticker` return the live object, whose fields are `var`. A caller's write through that reference changes the manager's state, and can break the fixed 500 ms animation duration the text manager's invariant keeps. The model returns values, so it does not capture such writes.
- TimelineWidget.TimelineView.AddClip: TimelineView stores the caller's `Clip` object, whose fields are `var`, so the caller can still change a stored clip's start, duration or track. The model stores a value and does not capture such writes, nor the total duration going stale after one.
- `getAllStickers`, `getAllTracks` and `getAllOverlays` return copies of the list field; the model's field is that list.
- `getAvailableEmojis` returns a constant list.

Platform, I/O and drawing:
- Codec and file I/O: `decodeAudioFile` in audio_engine.cpp and AudioMixer.kt, `initOpenSL`, the MediaCodec encoding loop and `saveToGallery` in VideoExporter.kt, and file writes. Decoded samples, encoder packets and file sizes are inputs; the WAV writers return the bytes they would write.
- Export.RunExport: cancellation of the export coroutine is not modelled. A video loop without an end of stream is modelled as a stall that emits and releases nothing more (Export.Stalls), which is what cancelling it leads to. The codec calls are abstracted into the encoder outputs that reach the muxer, so whether the encoder is polled often enough to deliver its end of stream is not modelled.
- Export.CopyAndRelease: MediaMuxer refuses addTrack after start, which the audio copy does (Export.StartBeforeAudioTrack). That refusal belongs to the MediaMuxer contract, outside this code, and a CopyAudio fault stands for it.
- VoiceRecorder: AudioRecord capture is an input sequence of reads. `stopRecording`, `cancelRecording` and `cleanup` only clear the recording flag, release the device and delete the file, and are not modelled.
- BackgroundRemover: `getSegmentationMask` (the ML Kit segmenter) is not modelled; the mask is an input of confidences. `Bitmap.recycle` is not modelled.
- Drawing and gestures: Canvas and Paint calls in `TextRenderer.render` and `StickerManager.renderFrame` become records of what would be drawn. `formatTime`, `onDraw`, `drawClip`, `drawTimeRuler`, `drawPlayhead` and the gesture plumbing of TimelineView are not modelled; `handleDoubleTap` only passes the id of the clip FindClipAt returns to a callback.
- `addEmoji`, `addImageSticker` and `createEmojiBitmap` create or decode bitmaps; the model takes the bitmap as an input.
- Fade, slide, zoom and circle transitions composite through Canvas alpha, scaling and anti-aliasing; the dispatch to them is modelled, their drawing is not.
- Float-only filters: `gaussianBlur` and `motionBlur` past their no-op guards, `createGaussianKernel`, the contrast, saturation, hue, sepia and vignette arms of `ColorFilter::apply`, `FrameBuffer::scale` (bilinear), and the reverb, bass boost, treble boost, robot voice, pitch shift and normalize effects in AudioEffects.kt.
- VideoEffects.kt applies colour matrices through Android's `ColorMatrixColorFilter` and an unseeded `Random`; it is not modelled.
- `secondsToMicros`, `microsToSeconds` and `currentTimeMicros` (float conversions and the wall clock) in time_utils.h are not modelled.

## Findings

| source | as written | input that shows it | evidently intended | confidence | as-written member | corrected member |
|---|---|---|---|---|---|---|
| app/src/main/cpp/engine/frame_buffer.cpp:251-273 | the chroma planes are `ySize / 4` bytes each and indexed `(y/2)*(width/2) + x/2`, which rounds an odd width or height down | a 3×3 frame writes V to byte 13 of the 13-byte buffer `dataSize` allocates; on a 3×2 frame the U of pixel (2,0) overwrites the V of pixel (0,0) | chroma planes of ⌈w/2⌉ × ⌈h/2⌉ samples, so every pixel's U and V lie inside their own plane | not executed | FrameBuffer.UvIndexAsWritten, FrameBuffer.OddFrameOverrunsBuffer, FrameBuffer.OddWidthOverlapsPlanes | FrameBuffer.UvIndexInPlane, FrameBuffer.FrameBuffer.RgbaToYuv420, FrameBuffer.FrameBuffer.Yuv420ToRgba |
