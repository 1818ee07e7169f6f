# Model and proofs for a DAAP music server

The repository is a music server for classic Macintosh clients. This project models its algorithmic
core and proves what that core is meant to guarantee, in five parts:

- **Pictures** (`Grid`, `Diffusion`, `ErrorLedger`, `FloydSteinbergTaps`, `FloydSteinberg`, `Atkinson`, `Palette`,
  `PaletteDither`, `PaletteOverflow`, `OrderedBayer`, `Bits`, `PackBits`, `PixelRows`, `BigEndian`, `PictFormat`,
  `PictRoundTrip`, `PictEncoder`, `Artwork`). The in-place serpentine dithers are proved against a
  recurrence that says what each buffer cell holds at each moment, from which bounds and conservation
  over whole runs follow. The encoder is proved against a reader of PICT version 2 (Inside Macintosh:
  Imaging With QuickDraw, chapter 7 and appendix A; PackBits as in Apple Technical Note TN1023). The
  two meet in `Artwork`: every depth and mode reads back as its dithered image, and what the pictures
  show is compared with the source bytes.
- **Streaming** (`BufferedBody`, `Ranges`). The drainer task, the bounded channel and the reader are a
  step system with arbitrary interleavings; conservation, the end of the transcript, the memory bound
  and progress hold of all its runs. The loop and the poll method take only steps of it. Skipping
  through a stream is compared with seeking in it.
- **DLNA catalogue** (`Strings`, `Didl`, `Catalogue`, `CatalogueReach`, `CatalogueFound`). Text assembly
  from XML events, paged browsing, and the breadth-first walk over a remote graph whose answers may
  differ, fail or form cycles; then the three together on a server that pages honestly.
- **Listings** (`StableSort`, `TrackSort`, `Listing`, `PlaylistListing`, `Dmap`, `Responses`,
  `TrackRows`).
  Ordering, filtering and paging, where each page is computed from its own fetch; the nested wire
  format with lengths patched in afterwards; and what a paging client finally reads.
- **Seeking** (`Transcode`). Sizes, times and headers of transcoded tracks, with exact rounding bounds.

Where the source changes state in place (error buffers, the row buffer, the output vector, the
response buffer, the parser's and the reader's fields) the model has arrays or classes whose methods
are tied to specification functions, and the theorems are about those functions. Files, sockets, XML
tokenising and library calls are parameters: a producer is the list of its reads, a server is a
function from request number, object id and index to an answer, case folding, trimming and number
parsing are arbitrary functions.

The orders, luminances, names and field meanings that the code computes are each stated a second time on
their own, in terms that do not mention how they are computed, and proved to agree.

Points where the code differs from what its comments say, or from what one might expect; the model
follows the code:

- `crates/daap-server/src/buffered_body.rs:54-55` gives the peak as the cap plus one chunk. The channel
  holds max(cap / 16384, 4) chunks, one more can be in flight and one left over
  (`AheadBound`, `AheadBoundAttained`), a byte less when every poll has room; that exceeds the stated
  peak for all but some caps (`AheadBoundWithRoom`, `PeakExceedsDocumentedIff`).
- `crates/daap-server/src/http.rs:298-308` sorts playlists so that pages join whatever the source order,
  but playlists whose names sort alike keep their source order (`PanePagesJoin`, `PanePagesDrift`).
- `crates/pict/src/encoder.rs:238-249` accepts widths whose row width collides with the flag bit of its
  word: 8-bit pictures 32767 wide and direct colour above 8191 (`IndexedRoundTrip`, `DirectRoundTrip`).
- `crates/daap-server/src/http.rs:465-477` slices an empty sorted playlist out of bounds
  (`SortedSliceAborts`).
- `crates/media-source/src/lib.rs:144-155` announces an end beyond the data unclamped, and an end before
  the start, whose width `crates/daap-server/src/http.rs:829` then cannot compute
  (`SkippingIsSeeking`, `AnnouncedIsDelivered`); `crates/media-source-fs/src/lib.rs:264-266` subtracts a
  start from an earlier end (`SeekOpensIff`).
- `crates/daap-server/src/responses.rs:216-222` counts places by page so that they are stable across
  pages; they are (`PlacesJoin`), except on unsorted full pages where an entry that resolves follows
  one that does not (`UnsortedPlacesAgreeIff`).
- `crates/pict/src/dither.rs:50-54` takes the colour error from the unclamped value, so it grows from row
  to row; the 16-bit products of all pictures and palettes are safe for ten rows and not for eleven
  (`TenRowsFit`, `FitsIffTenRows`).
- `crates/daap-server/src/search.rs:115-116` calls its matching ASCII-case-insensitive; it lower-cases by
  Unicode.
- `crates/pict/src/palette.rs:8-10` says that all tables run from white to black; the gray ramps run from
  black to white (`TablesWhiteToBlack`, `GrayRamp`).
- `crates/pict/src/dither.rs:107` casts the level index to u8, so the error bound needs at most 256
  levels (`ErrorWithinHalfRange`).
- Seeking in AIFF and back rounds to at most 22 samples with the nearest-sample count and 23 with the
  count inside `classic_aiff_size` (`AiffSeekIsClose`).

Nothing was executed; all statements are checked by the Dafny verifier alone
(`dafny verify dfyconfig.toml`).

## Model

| member | source | states |
|---|---|---|
| Grid.SerpentineVisitsOnce | crates/pict/src/dither.rs:99-105 | the zig-zag scan visits every pixel of a row exactly once: position and pixel determine each other, nothing is visited at the start and everything at the end |
| Diffusion.TargetUnvisited | crates/pict/src/dither.rs:113-127 | every in-bounds pixel that receives error is one the scan has not reached yet, in either scan direction |
| Diffusion.ScatterIsGather | crates/pict/src/dither.rs:117-127 | adding the shares of the visited pixel to the buffer in the order of the code gives the buffer that a recurrence over earlier pixels predicts: the in-place run refines an independent definition of every cell at every moment |
| Diffusion.HeldFrozen | crates/pict/src/dither.rs:106-112 | from the moment a pixel is visited its buffer cell never changes again |
| ErrorLedger.HeldBounded | crates/pict/src/dither.rs:106-127 | if every share of a tap is capped, every cell of every image is at all times within the sum of the caps of its input, so the saturating addition never saturates |
| ErrorLedger.LedgerConserved | crates/pict/src/dither.rs:99-129 | at every moment of the scan the unvisited buffer plus what was settled at the visited pixels sums to the input image |
| FloydSteinberg.ErrorWithinHalfRange | crates/pict/src/dither.rs:106-112 | the quantisation error stays within 127 for all values if and only if there are at most 256 levels (the index is cast to u8) |
| FloydSteinberg.PickIsNearest | crates/pict/src/dither.rs:106-112 | up to 256 levels the picked level is within half a step of the value |
| FloydSteinberg.OneNearest | crates/pict/src/dither.rs:106-112 | one level only is, and every other is farther away |
| FloydSteinberg.ErrorWithinHalfStep | crates/pict/src/dither.rs:106-112 | so the error shrinks as levels are added: (levels - 1) times the error lies between -127 and 125 + levels |
| FloydSteinberg.IndexWrapsAround | crates/pict/src/dither.rs:107-112 | above 256 levels white alone already breaks that bound |
| FloydSteinberg.ShareBounds | crates/pict/src/dither.rs:114-122 | each neighbour receives its sixteenths of the error to within 15 sixteenths, rounded towards zero, and at most the cap of its weight |
| FloydSteinberg.BufferBounded | crates/pict/src/dither.rs:91-131 | for any image and 2 to 256 levels every buffer cell stays within 124 of its original pixel throughout the run |
| FloydSteinberg.Conservation | crates/pict/src/dither.rs:99-129 | at every step sum of the unvisited buffer + sum over visited pixels of (output value + leak) = sum of the input, for any number of levels |
| FloydSteinberg.InteriorLeak | crates/pict/src/dither.rs:110-127 | a pixel away from the border whose value needs no clamping loses at most 3 to rounding |
| FloydSteinberg.FloydSteinbergGray | crates/pict/src/dither.rs:91-131 | the serpentine in-place loop over the mutable error buffer puts at every pixel the level picked for the value gathered there; up to 256 levels that is the nearest level, (levels - 1) * value and 255 * level within 127 of each other |
| FloydSteinbergTaps.SharesGo | crates/pict/src/dither.rs:113-127 | 7, 3, 5 and 1 sixteenths go to the next pixel, below the previous, below, and below the next, in either scan direction |
| Atkinson.EighthsGo | crates/pict/src/dither.rs:201-216 | an eighth each goes to the next two pixels, the three below and the one two below, mirrored on the way back |
| Atkinson.BufferBounded | crates/pict/src/dither.rs:169-220 | for any image every cell stays in [-90, 345] and every diffused eighth in [-15, 15], although nothing is clamped |
| Atkinson.Conservation | crates/pict/src/dither.rs:178-218 | the error ledger: unvisited buffer + visited output and leak = input, at every step |
| Atkinson.InteriorLeak | crates/pict/src/dither.rs:192-216 | an interior pixel leaks at most 37 (the undistributed quarter and the rounding) |
| Atkinson.PackedMeaning | crates/pict/src/dither.rs:174-191 | read back from the packed output, the bit of a pixel is 1 exactly if its gathered value is at least 128, most significant bit first, and padding bits are 0 |
| Atkinson.Atkinson1Bit | crates/pict/src/dither.rs:169-220 | the loop with its six scatter targets and bit marking produces exactly that packed image |
| PaletteDither.PaletteImageFixed | crates/pict/src/dither.rs:17-75 | if every pixel colour is in the palette no buffer cell ever changes |
| PaletteDither.SharesMean | crates/pict/src/dither.rs:50-66 | while the products fit, each of the three channels is handed on by itself: every neighbour gets its sixteenths of that channel, rounded towards zero, and the four shares make up the error to within 3 |
| PaletteDither.FloydSteinbergPalette | crates/pict/src/dither.rs:17-75 | for any palette every output index is a palette index, with up to 256 entries the nearest to the value gathered there (the error product wraps at 16 bits); an image drawn in the colours of such a palette comes out in exactly those colours |
| PaletteDither.WrapMeans | crates/pict/src/dither.rs:62 | the product as an optimised build computes it fits 16 bits and is off by a multiple of 2^16 |
| PaletteOverflow.TenRowsFit | crates/pict/src/dither.rs:50-65 | for every palette and picture the error in row y is at most 454 (y + 1) in every channel, so up to ten rows no error product leaves 16 bits |
| PaletteOverflow.RowsClimb | crates/pict/src/dither.rs:50-65 | while every product fits, solid red shown as a gray gains its level row by row (432 a row shown as black, 224 as the darker of the four grays), the columns k in from where each row is entered included |
| PaletteOverflow.FitsIffTenRows | crates/pict/src/dither.rs:50-65 | from 88 columns on, and for every palette size: all pictures and palettes of that size keep every product within 16 bits if and only if there are at most ten rows |
| PaletteOverflow.RedOnGraysFitsIff | crates/pict/src/dither.rs:50-65 | solid red drawn in the four grays, 252 or more wide: every product fits if and only if there are at most 20 rows |
| Palette.NearestIsFirst | crates/pict/src/palette.rs:125-142 | the search returns the first entry at the least squared distance |
| Palette.LumaIsLuminance | crates/pict/src/palette.rs:25-31 | for every byte colour the fixed-point luma is the Rec. 709 luminance 0.2126 R + 0.7152 G + 0.0722 B to within -1.52 and +0.52, and a gray has its own value |
| Palette.CubeSteps | crates/pict/src/palette.rs:39-71 | cube entry (r, g, b) of the system palette steps each channel down from 255 by 51, red slowest |
| Palette.RampSteps | crates/pict/src/palette.rs:39-71 | its ramp goes from white to black in 39 even steps, rounded to the lighter |
| Palette.TablesWhiteToBlack | crates/pict/src/palette.rs:8-10 | all three colour tables have white first and black last |
| Palette.NearestIndex | crates/pict/src/palette.rs:125-142 | the scanning loop finds that entry, its index cast to u8 |
| Palette.DistanceFitsU32 | crates/pict/src/palette.rs:131-135 | the squared distance stays below the initial u32::MAX |
| Palette.BuildPalette | crates/pict/src/palette.rs:39-71 | the nested loops fill 216 cube colours, red slowest and all from bright to dark, then a 40-step gray ramp |
| Palette.BuildGrayRamp | crates/pict/src/palette.rs:108-121 | an evenly spaced ramp of N grays from black to white, white alone for N = 1 |
| Palette.GrayRamp | crates/pict/src/palette.rs:106-121 | both end points are exact and all entries are byte colours |
| OrderedBayer.BayerWithinOneLevel | crates/pict/src/dither.rs:152-159 | for up to 256 levels the dithered level is within one of the undithered one, and black and white are kept exactly, wherever the matrix falls |
| OrderedBayer.MatrixRefines | crates/pict/src/dither.rs:139-145 | the matrix is the 2x2 ordered-dither matrix refined by itself |
| OrderedBayer.EveryOffsetOnce | crates/pict/src/dither.rs:139-145 | each of the sixteen offsets is used exactly once in a tile |
| OrderedBayer.OffsetMeans | crates/pict/src/dither.rs:152-156 | the offset of a pixel is its matrix value less 8, times an eighth of the half step, rounded towards zero |
| OrderedBayer.TileAverages | crates/pict/src/dither.rs:136-163 | over every aligned tile of a flat gray v the four-level dither averages to it: 255 times the sum of the sixteen levels is within 672 of 48 v |
| OrderedBayer.OrderedBayerGray | crates/pict/src/dither.rs:136-163 | the double loop gives each pixel the level nearest to its gray with the offset of its place added |
| PackBits.RoundTrip | crates/pict/src/encoder.rs:341-373 | the standard unpacker recovers every byte string |
| PackBits.ExpansionBound | crates/pict/src/encoder.rs:341-373 | at most one byte more for each 128 begun, because a literal cut short is followed by a run of at least 3 or the end |
| PackBits.BoundAttained | crates/pict/src/encoder.rs:341-373 | inputs without three equal bytes in a row reach the bound exactly |
| PackBits.PackedTidy | crates/pict/src/encoder.rs:341-373 | no 0x80 header, runs of 3 to 128, literals of 1 to 128 without three equal bytes, short literals only before a run or the end |
| PackBits.PrefixWideEnough | crates/pict/src/encoder.rs:89-94 | a row of up to 250 bytes always fits its one-byte length, any row its two-byte length |
| PackBits.Pack | crates/pict/src/encoder.rs:341-373 | the greedy nested loops compute that packing |
| PixelRows.RowBytesHoldRow | crates/pict/src/encoder.rs:329-333 | a row is the fewest whole words that hold its pixels, and leaves the flag bit free except for 8-bit rows 32767 wide |
| PixelRows.RowRoundTrip | crates/pict/src/encoder.rs:80-88 | unpacking a packed row gives the low pixelSize bits of every index, and the index itself if it fits |
| PixelRows.PackRow | crates/pict/src/encoder.rs:79-88 | the row buffer, refilled in place with shifts and ors, holds the packed row |
| PictRoundTrip.RowBack | crates/pict/src/encoder.rs:89-95 | a length-prefixed PackBits row reads back as its masked pixels, whichever prefix width applies |
| PictRoundTrip.ColorTableBack | crates/pict/src/encoder.rs:290-300 | the embedded colour table reads back as the palette |
| PictRoundTrip.PackBitsRectBack | crates/pict/src/encoder.rs:63-96 | header, table, placement and rows of one image read back, or are refused exactly when the row width needs the flag bit |
| PictRoundTrip.IndexedRoundTrip | crates/pict/src/encoder.rs:33-101 | a reader that insists on frame, header rectangle, clip, bounds, source and destination being one rectangle of the picture's size, copied, at 72 dots an inch, returns size, depth, palette and masked indices for every valid input but 8-bit pictures 32767 wide, which cannot be read |
| PictRoundTrip.IndexedExactRoundTrip | crates/pict/src/encoder.rs:73-88 | indices that fit the depth come back unmasked |
| PictRoundTrip.HeaderFields | crates/pict/src/encoder.rs:251-270 | the frame and the header rectangle are the picture's, the resolution 72 dots an inch |
| PictRoundTrip.PlacementBack | crates/pict/src/encoder.rs:69-71 | source and destination rectangles are the whole picture and the mode is copy |
| PictRoundTrip.BitmapRowsFit | crates/pict/src/encoder.rs:335-338 | a bitmap row is the fewest whole words that hold its bits, the top bit of its width free |
| PictRoundTrip.BitmapRoundTrip | crates/pict/src/encoder.rs:202-236 | a bitmap picture of any valid size reads back as its bits |
| PictRoundTrip.DirectRoundTrip | crates/pict/src/encoder.rs:121-198 | a direct-colour picture reads back as its pixels if and only if it is at most 8191 wide |
| PictEncoder.ValidateDims | crates/pict/src/encoder.rs:238-249 | accepts exactly 1 to 32767 each way; the first failing test decides the error |
| PictEncoder.Writer.WriteCommonPrelude | crates/pict/src/encoder.rs:251-270 | 512 zeros and the words that the round trips read back: frame, version and header opcodes, resolution, header rectangle, default highlight, clip |
| PictEncoder.Writer.WritePixmapHeaderIndexed | crates/pict/src/encoder.rs:272-288 | the pixmap record with the flagged row width |
| PictEncoder.Writer.WriteColorTable | crates/pict/src/encoder.rs:290-300 | seed, flags, size - 1 and one numbered entry of doubled channel bytes per colour |
| PictEncoder.Writer.WriteRow | crates/pict/src/encoder.rs:89-95 | the length prefix by row width, then the packed bytes |
| PictEncoder.Writer.WriteDirectOpcode | crates/pict/src/encoder.rs:139-145 | the opcode written as four bytes, taken back, and written as two |
| PictEncoder.Writer.AlignEven | crates/pict/src/encoder.rs:323-327 | a zero byte exactly when the length is odd |
| PictEncoder.EncodePackbits | crates/pict/src/encoder.rs:33-101 | the refusals in their order; otherwise bytes that read back as the image with masked indices |
| PictEncoder.EncodeIndexed | crates/pict/src/encoder.rs:107-114 | the 8-bit wrapper |
| PictEncoder.EncodeBitmap | crates/pict/src/encoder.rs:202-236 | the refusals in their order; otherwise bytes that read back as the bits |
| PictEncoder.EncodeDirectBitsRectRgb | crates/pict/src/encoder.rs:121-198 | the refusals in their order; otherwise bytes that read back as the pixels, or not at all above width 8191 |
| Artwork.EncodePict | crates/daap-server/src/artwork.rs:238-329 | every depth and mode: refused exactly for an unsupported pair or bad dimensions, else bytes that read back as the requested size, palette and the dithered indices themselves, no bit lost to masking, or that cannot be read in the two too-wide cases |
| Artwork.Grays | crates/daap-server/src/artwork.rs:248-251 | the gray dithered for a pixel is the Rec. 709 luminance of its three bytes, to within -1.52 and +0.52 |
| Artwork.TableColoursShown | crates/daap-server/src/artwork.rs:268-276 | a colour picture whose pixels are all in its colour table shows exactly the bytes of the source |
| Artwork.GraysShown | crates/daap-server/src/artwork.rs:278-309 | a gray picture of 16 or 256 levels shows at every pixel a gray entry that is the nearest to what the pixel holds, and 15 or 255 times their difference is at most 127, and rounding more, off |
| BufferedBody.NothingLost | crates/daap-server/src/buffered_body.rs:76-144 | in every reachable state with a live reader: bytes read from the producer = delivered ++ left over ++ queued ++ in flight; before the end no poll with room is empty and no error is told |
| BufferedBody.EndTellsAll | crates/daap-server/src/buffered_body.rs:106-144 | a reader that was told the end has been given exactly what the producer yielded before it ended, then its error or end of file as the producer ended, then end of file for ever |
| BufferedBody.RunKeeps | crates/daap-server/src/buffered_body.rs:76-144 | the invariant behind both, kept by every interleaving of reads, sends, polls of any size and the reader going away |
| BufferedBody.AheadBound | crates/daap-server/src/buffered_body.rs:55-73 | the drainer is never more than channel capacity + 2 chunks ahead of delivery |
| BufferedBody.AheadBoundAttained | crates/daap-server/src/buffered_body.rs:55-73 | and some run gets that far, for every capacity, with a poll that has no room |
| BufferedBody.AheadBoundWithRoom | crates/daap-server/src/buffered_body.rs:55-73 | with a reader whose polls all have room it stays a byte below that |
| BufferedBody.RoomBoundAttained | crates/daap-server/src/buffered_body.rs:55-73 | and some run of such a reader gets that far, for every capacity |
| BufferedBody.PeakExceedsDocumentedIff | crates/daap-server/src/buffered_body.rs:52-55 | so a reader that always has room can see the documented peak, the cap plus one chunk, exceeded exactly unless the cap is at least four chunks and one byte short of a further one |
| BufferedBody.PeakExceedsDocumented | crates/daap-server/src/buffered_body.rs:52-55 | with a poll without room it is exceeded for every cap |
| BufferedBody.ChannelCap | crates/daap-server/src/buffered_body.rs:62-66 | at least four messages |
| BufferedBody.Progress | crates/daap-server/src/buffered_body.rs:76-144 | no unfinished state is stuck while the reader polls with room |
| BufferedBody.WorkBound | crates/daap-server/src/buffered_body.rs:76-144 | however events interleave, the events that move anything are bounded by the bytes and messages still to come |
| BufferedBody.EveryRunFinishes | crates/daap-server/src/buffered_body.rs:76-144 | over every run in which the reader stays, in whatever order: the events that move anything number at most the work there was, and nothing can move any more if and only if the reader has been told the end |
| BufferedBody.Body.constructor | crates/daap-server/src/buffered_body.rs:57-73 | the initial state |
| BufferedBody.Body.PollRead | crates/daap-server/src/buffered_body.rs:106-144 | one poll is one step of the system, with the answer it records |
| BufferedBody.Body.ServeFrom | crates/daap-server/src/buffered_body.rs:117-124 | hand over what fits, keep the rest |
| BufferedBody.Body.DrainLoop | crates/daap-server/src/buffered_body.rs:76-103 | the drain loop, with the reader acting arbitrarily at each of its waits, performs a run of the step system, so the accounting and the bound hold when it is suspended or ends |
| Ranges.Stream.Read | crates/media-source/src/lib.rs:132-143 | a read may be short, but not empty while there are bytes and room |
| Ranges.OpenBySkipping | crates/media-source/src/lib.rs:121-156 | the skip loop leaves the stream at the start of the range, or at its end if that is sooner, and announces the unclamped range |
| Ranges.SkippingIsSeeking | crates/media-source/src/lib.rs:144-155 | inside the data and with ordered ends, skip-and-take and seek-and-take deliver the same bytes, start to min(end, size - 1), and announce the same range if and only if the end is absent or inside the data |
| Ranges.AnnouncedIsDelivered | crates/daap-server/src/http.rs:815-832 | for any start, any end and a size known or not, the length announced for a skipped range is what is delivered if and only if its end, given or taken from the size, is not before its start and inside the data; nothing is announced exactly without either; the width leaves u64 exactly when the end is before the start or the range is all of u64 |
| Ranges.SoughtIsDelivered | crates/daap-server/src/http.rs:815-832 | the length announced for a sought range is what is delivered whenever it opens |
| Ranges.SeekOpensIff | crates/media-source-fs/src/lib.rs:257-266 | the seek is refused exactly beyond the file, and its length underflows exactly for an end before the start |
| Ranges.ServeBySkipping | crates/media-source/src/lib.rs:121-156 | for any start and end, with reads of any size and a body read to its end in pieces of any size: the bytes of the range as far as there are any, none from beyond the data, and everything from the start on when the end is before it |
| Ranges.PrefixReader.PollRead | crates/daap-server/src/prefix_reader.rs:27-45 | every poll continues in prefix ++ inner stream where the last stopped, and is empty with room to spare only after all of it |
| Didl.ApplyTwice | crates/media-source-dlna/src/browse.rs:476-515 | two texts applied in turn are their concatenation applied once, for every field, the re-parsed track number and year included |
| Didl.FragmentsJoin | crates/media-source-dlna/src/browse.rs:342-370 | a run of text, resolved references and CDATA acts as the one text it spells; unresolved references and ignored events act as nothing |
| Didl.FragmentationInvariance | crates/media-source-dlna/src/browse.rs:326-410 | replacing a run of text anywhere by another run that spells the same changes nothing that is parsed |
| Didl.ItemReadsBack | crates/media-source-dlna/src/browse.rs:395-402 | an item element with its parts in any order, text fields, resources, elements without a case and text between them, has one effect: it adds the item assembled from them, or nothing |
| Didl.ItemDescribed | crates/media-source-dlna/src/browse.rs:517-549 | an item element stands for an item if and only if its class is audio and it has a resource whose first has an address; the item has the trimmed texts and numbers of its own elements and the attributes of the first resource, field by field |
| Didl.PartsAssemble | crates/media-source-dlna/src/browse.rs:412-515 | whatever the order of the parts and however their text is cut, each field holds the text of its own elements and no other, repeated elements run together, and only the first resource counts |
| Didl.FolderReadsBack | crates/media-source-dlna/src/browse.rs:380-393 | a container element, whatever else it contains and in whatever order, adds its id and the trimmed text of its titles |
| Didl.DocumentReadsBack | crates/media-source-dlna/src/browse.rs:326-410 | a document of item and container elements with anything without effect around them parses to exactly its folders and its items, each in order |
| Didl.DidlParser.HandleStart | crates/media-source-dlna/src/browse.rs:412-468 | node, builder and text target after a start tag; only the first resource counts |
| Didl.DidlParser.ApplyText | crates/media-source-dlna/src/browse.rs:476-515 | text goes to the target field of the current node |
| Didl.DidlParser.HandleEnd | crates/media-source-dlna/src/browse.rs:376-406 | any end tag stops collecting; the end of a container or item takes the node whichever it is |
| Didl.ParseDidlLite | crates/media-source-dlna/src/browse.rs:326-410 | the event loop: the folders and items of the run over all events, or the reader error |
| Catalogue.BrowseChildren | crates/media-source-dlna/src/browse.rs:160-232 | the paging loop, parsing each document, ended by an empty page or the total, returns the concatenated pages or the first failure |
| Catalogue.PagesJoin | crates/media-source-dlna/src/browse.rs:166-231 | a server that pages through a fixed list, as many at a time as it likes, is read completely: nothing missing, nothing twice |
| Catalogue.BuildCatalogue | crates/media-source-dlna/src/browse.rs:77-158 | for any answers to any request, cyclic graphs and failures included, the queue-driven walk ends, and unless a server makes the 32-bit index overflow its catalogue numbers what a level-by-level traversal visits |
| Catalogue.LevelOrder | crates/media-source-dlna/src/browse.rs:93-98 | visits come level by level and never below the depth limit |
| Catalogue.NothingSkippedVisited | crates/media-source-dlna/src/browse.rs:141-152 | directly below the server root no container with a skipped name (ASCII case ignored) is ever browsed |
| CatalogueReach.VisitedIffReached | crates/media-source-dlna/src/browse.rs:77-158 | on an unchanging graph a container is visited at a depth if and only if that is within the limit, a path of that length from the root reaches it through kept children, and it can be browsed |
| CatalogueReach.CatalogueIsFindable | crates/media-source-dlna/src/browse.rs:77-158 | the catalogue holds exactly the items of containers reached that way, whatever cycles the graph has |
| CatalogueReach.ChildrenAreEdges | crates/media-source-dlna/src/browse.rs:141-155 | the children followed are those listed, less the folders named after seven kinds of media, whatever their case, directly below the server root |
| CatalogueFound.HonestBrowse | crates/media-source-dlna/src/browse.rs:160-232 | a server that answers each request with a document describing the next children is parsed and joined to exactly the contents of the object, and its index never overflows |
| CatalogueFound.HonestCatalogue | crates/media-source-dlna/src/browse.rs:77-410 | end to end, on such a server over an unchanging graph: the walk completes, entry i of the catalogue is a findable item with number i + 1, every findable item among them, and the containers are those of the folders below the top that hold items, each under its folder's title (or id) and with the numbers of exactly its folder's items |
| CatalogueFound.HolderIsInDocument | crates/media-source-dlna/src/browse.rs:376-393 | the id and title of such a folder are the attribute and the trimmed title text of its element in a document about its parent |
| CatalogueFound.CatalogueOfHonestServer | crates/media-source-dlna/src/browse.rs:77-158 | the walk as it runs returns such a catalogue |
| Catalogue.NumberedItems | crates/media-source-dlna/src/browse.rs:121-127 | item i has number i + 1 |
| Catalogue.ContainerStems | crates/media-source-dlna/src/browse.rs:128-139 | container j has number j + 2, is called by the folder's title or, when that is empty, by its object id, and has the non-empty, consecutive numbers of the items of one visit below the top |
| Catalogue.ContainerOfVisit | crates/media-source-dlna/src/browse.rs:128-139 | every visit below the top that found items gives rise to exactly one container |
| Catalogue.ContainersDisjoint | crates/media-source-dlna/src/browse.rs:128-139 | track numbers increase from container to container, so no two share a track |
| Catalogue.ContainersCoverDeepItems | crates/media-source-dlna/src/browse.rs:121-139 | a track is in some container if and only if it was found below depth 0 |
| Catalogue.ItemById | crates/media-source-dlna/src/browse.rs:17-20 | the scan finds the first item of that number |
| Catalogue.FirstIsFirst | crates/media-source-dlna/src/browse.rs:17-20 | that is, one with the number before which none has it, or none when none has |
| Catalogue.LookupIsIndexing | crates/media-source-dlna/src/browse.rs:17-20 | in every numbered catalogue that agrees with direct indexing |
| TrackSort.Compare | crates/daap-server/src/sort.rs:117-125 | the key loop computes the lexicographic comparison with the number last |
| TrackSort.CompareIsBefore | crates/daap-server/src/sort.rs:117-184 | less means coming before: by the first key on which the values differ, an absent one last, the smaller number or, as a dictionary has it, the smaller text first, descending the other way round, else the smaller track number |
| TrackSort.StringOrder | crates/daap-server/src/sort.rs:172-184 | texts compare equal only if equal, and less if and only if one is a proper beginning of the other or smaller at the first character that differs |
| TrackSort.SortedInOrder | crates/daap-server/src/sort.rs:110-112 | the sorted list is a rearrangement in which nothing comes before what precedes it |
| TrackSort.SortedByFirstKey | crates/daap-server/src/sort.rs:110-112 | so the values of an ascending first key ascend, those of a descending one descend, and absent ones are last |
| TrackSort.FoldedAppend | crates/daap-server/src/sort.rs:172-184 | folding a text folds its characters, in order |
| TrackSort.KeysTotalPreorder | crates/daap-server/src/sort.rs:117-184 | for any key list the comparison is a total preorder |
| TrackSort.TiesOnlyById | crates/daap-server/src/sort.rs:117-125 | only tracks of the same number tie |
| TrackSort.MissingLast | crates/daap-server/src/sort.rs:151-166 | a track without the first key's value comes after one with it, in both directions |
| TrackSort.MissingIsAbsent | crates/daap-server/src/sort.rs:151-166 | a track misses a key exactly when it has no value for it |
| TrackSort.SortedMissingLast | crates/daap-server/src/sort.rs:110-112 | so in a sorted list no valued track follows an unvalued one |
| TrackSort.ReadsOnlyItsField | crates/daap-server/src/sort.rs:127-149 | a key compares by its own field and no other |
| TrackSort.DirectionReverses | crates/daap-server/src/sort.rs:127-149 | between tracks that have the value a descending key is the exact reverse |
| TrackSort.SourceOrderIrrelevant | crates/daap-server/src/sort.rs:110-125 | the same tracks in any source order sort to the same list |
| TrackSort.Apply | crates/daap-server/src/sort.rs:110-112 | the array is left stably sorted |
| StableSort.AnyStableSort | crates/daap-server/src/sort.rs:110-112 | whatever algorithm the library uses, a stable sort has one possible result |
| StableSort.OrderIndependent | crates/daap-server/src/sort.rs:110-112 | without ties between different members every input order gives the same result |
| StableSort.TiesShow | crates/daap-server/src/http.rs:298-308 | with two different members that tie, exchanging them changes the result |
| Listing.ParseIndexRange | crates/daap-server/src/http.rs:548-566 | a parsed range never ends before it starts |
| Listing.RangeTextMeans | crates/daap-server/src/http.rs:548-566 | trimmed text A-B, blanks around A and B allowed, means that range unless B is below A, A- the rest, and anything unparsable the whole listing |
| Listing.DashlessTextIsWhole | crates/daap-server/src/http.rs:548-556 | text without a dash selects the whole listing |
| Listing.RangeIsWindow | crates/daap-server/src/http.rs:568-578 | a range selects the positions from start to end as far as there are any |
| Listing.AllPagesJoin | crates/daap-server/src/http.rs:568-578 | consecutive ranges of one listing join to it |
| Listing.ItemListingStable | crates/daap-server/src/http.rs:253-274 | filtered and sorted, the listing does not depend on the source order |
| Listing.ItemListingMeans | crates/daap-server/src/http.rs:230-274 | the listing holds exactly the served tracks that match the filter, if there is one, and none comes after one that the keys put behind it |
| Listing.ClauseMeans | crates/daap-server/src/search.rs:102-124 | a clause on name, artist or album matches a track that has that text, its needle being somewhere in the lower-cased text; on any other field none |
| Listing.AnyClauseMatches | crates/daap-server/src/search.rs:97-100 | a query matches what any of its clauses matches |
| Listing.ItemPagesJoin | crates/daap-server/src/http.rs:263-281 | pages computed from a different source order each join to the listing without drift |
| Listing.HandleItems | crates/daap-server/src/http.rs:214-283 | serve, filter, sort, slice; malformed query first, then malformed sort; the total counts the filtered listing |
| Listing.ServeAndRetain | crates/daap-server/src/http.rs:230-261 | each track rewritten for the client, then kept if the filter matches |
| PlaylistListing.SortedSliceAborts | crates/daap-server/src/http.rs:465-481 | the sorted playlist slice is out of bounds if and only if nothing resolved and the range is absent or starts at 0; otherwise it is the page |
| PlaylistListing.SortedPagesJoin | crates/daap-server/src/http.rs:450-482 | sorted playlist pages join across source orders and never abort while anything resolves |
| PlaylistListing.SortedTracksMean | crates/daap-server/src/http.rs:446-464 | the sorted playlist holds the entries that resolve, none after one that the keys put behind it |
| PlaylistListing.UnsortedPagesJoin | crates/daap-server/src/http.rs:484-500 | unsorted pages join to the playlist order with unresolved entries left out |
| PlaylistListing.HandleContainerItems | crates/daap-server/src/http.rs:392-505 | bare numbers or full tracks, sorted or not, of the library or a playlist: which page, total and offset each case answers with, when it is refused and exactly when it aborts |
| PlaylistListing.EntriesMean | crates/daap-server/src/http.rs:392-430 | the library has all track numbers in order, a playlist those of the first playlist of its number, an unknown number none |
| PlaylistListing.PlacesJoin | crates/daap-server/src/responses.rs:200-209 | every entry has the same place, 1 to n, whichever page of the listing brings it |
| PlaylistListing.UnsortedPlacesAgreeIff | crates/daap-server/src/responses.rs:216-222 | on unsorted full pages, which count places over resolved entries, the places of all pages agree with those of the whole, however a client pages, if and only if no resolved entry follows an unresolved one |
| PlaylistListing.UnresolvedShiftsPlaces | crates/daap-server/src/responses.rs:216-222 | the shortest playlist for which they do not |
| PlaylistListing.ByIdStable | crates/daap-server/src/http.rs:446-448 | the lookup table does not depend on the order of the tracks |
| PlaylistListing.SliceIsRange | crates/daap-server/src/http.rs:371-390 | library flag and playlist slice together are the range of the list Library ++ playlists |
| PlaylistListing.PanePagesJoin | crates/daap-server/src/http.rs:298-324 | playlist pages join across source orders if no two different playlists sort the same |
| PlaylistListing.CmpNameIsBefore | crates/daap-server/src/http.rs:298-308 | playlist names compare by artist, then year, then album, texts as in a dictionary |
| PlaylistListing.PaneInOrder | crates/daap-server/src/http.rs:298-308 | and the pane lists all playlists, none before one whose name comes first |
| PlaylistListing.PanePagesDrift | crates/daap-server/src/http.rs:298-308 | and if two do, two pages can show one playlist twice and another never, against the stated intent |
| Dmap.Buffer.Close | crates/daap-server/src/dmap.rs:59-67 | patching the zero length in place gives the encoding of the container with the body just written |
| Dmap.Buffer.WriteElement | crates/daap-server/src/dmap.rs:59-67 | any nesting of opened, filled and patched containers writes the recursive tree encoding |
| Dmap.DecodeIffEncoded | crates/daap-server/src/dmap.rs:3-8 | a decoder of the wire format returns a tree if and only if the bytes are its encoding and it is well formed |
| Dmap.ComesBackIffWellFormed | crates/daap-server/src/dmap.rs:59-67 | a tree comes back if and only if it is tagged by the schema and no body reaches 2^32 bytes |
| Dmap.FitsInside | crates/daap-server/src/dmap.rs:65-66 | only the outermost length needs to fit |
| Responses.Items | crates/daap-server/src/responses.rs:70-86 | the builder writes the items tree |
| Responses.EmitTrackMlit | crates/daap-server/src/responses.rs:92-136 | a track's fields in order, absent ones left out, the size capped, the bit rate cut |
| Responses.Playlists | crates/daap-server/src/responses.rs:147-183 | the playlists tree, library first if on the page |
| Responses.PlaylistSongs | crates/daap-server/src/responses.rs:190-212 | the ids-only tree, numbered from the page offset |
| Responses.PlaylistSongsFull | crates/daap-server/src/responses.rs:223-245 | the full-metadata tree, numbered from the page offset |
| Responses.ResponseComesBack | crates/daap-server/src/responses.rs:70-86 | a response decodes to its own tree if and only if its body is shorter than 2^32 |
| Responses.ReplyBack | crates/daap-server/src/responses.rs:70-245 | every readable response is a success of its kind, announces as returned exactly the number of its rows, and the rows carry their numbers |
| Responses.ItemsPageBack | crates/daap-server/src/responses.rs:70-86 | a page of tracks reads back as the full size, its own size and its track numbers in order |
| Responses.IdPageBack | crates/daap-server/src/responses.rs:190-212 | a page of bare numbers reads back as its numbers at the places after the offset |
| Responses.FullPageBack | crates/daap-server/src/responses.rs:223-245 | a full page reads back as its tracks at the places after the offset |
| Responses.PanePageBack | crates/daap-server/src/responses.rs:147-183 | a page of playlists reads back as the full size, its own size and its numbers, the library first |
| TrackRows.TrackRowBack | crates/daap-server/src/responses.rs:92-136 | a row reads back tag by tag as its track: every text, number, format and kind under its own tag and nothing for absent ones, the bit rate cut to 16 bits and the size capped at 32 |
| TrackRows.FormatIsExtension | crates/daap-server/src/responses.rs:247-259 | the format told for a track is an extension by which the file scanner recognises that format, ALAC by that of AAC, and none that it recognises for an unknown one |
| TrackRows.ItemsRowsBack | crates/daap-server/src/responses.rs:70-86 | so a client sees every field of every track on a page of the library |
| TrackRows.PlaylistRowsBack | crates/daap-server/src/responses.rs:223-245 | and of a playlist, with its place |
| TrackRows.EntryRowBack | crates/daap-server/src/responses.rs:190-212 | a bare entry reads back as its kind, number and place |
| TrackRows.PaneRowsBack | crates/daap-server/src/responses.rs:147-183 | the rows of the source pane read back as number, name and size, the library alone marked as the base |
| Responses.PagedClientSeesListing | crates/daap-server/src/http.rs:263-282 | end to end: a client decoding its pages one by one, each from another source order, gathers the numbers of the one sorted and filtered listing |
| Transcode.AiffSeekIsClose | crates/daap-server/src/transcode.rs:116-141 | a seek to data byte d starts at most 22 samples early counted to the nearest sample, 23 rounded down, never late |
| Transcode.AiffSeekBoundsAttained | crates/daap-server/src/transcode.rs:106-141 | both bounds are reached |
| Transcode.OneSecond | crates/daap-server/src/transcode.rs:80-141 | a second is 22254 samples to every conversion |
| Transcode.ClassicAiffHeader | crates/daap-server/src/transcode.rs:144-171 | the filled array is FORM, COMM and SSND front with their sizes |
| Transcode.AiffConsistentIff | crates/daap-server/src/transcode.rs:123-171 | a player that checks every chunk name and size reads a served file as mono, 8 bits, 22254 a second and its own number of samples if and only if there are at most 2^32 - 47 samples |
| Transcode.Mp3ExactIff | crates/daap-server/src/transcode.rs:298-300 | size then time is exact for all durations if and only if the bit rate is positive and divisible by 8 |
| Transcode.Mp3WithinOneIff | crates/daap-server/src/transcode.rs:566-570 | it loses at most a millisecond at 4 kbit/s and from 6 up, and at no other bit rate |

## Left out

- PaletteDither.FloydSteinbergPalette: the product wraps in the model as in an optimised build, where a checked build stops; an empty palette, on which the code stops at the first pixel, is excluded.
- PaletteOverflow.FitsIffTenRows: pictures narrower than 88 are covered up to ten rows (`TenRowsFit`); how many more rows a narrow one can have is left open, since the error that leaves at the borders then decides.
- Diffusion.TargetUnvisited: coordinates are unbounded integers; the casts of widths and heights of 2^31 and more to i32 are not modelled.
- Catalogue.BuildCatalogue: track and container numbers are unbounded; the u32 counters' overflow after 2^32 items is not modelled.
- Catalogue.BrowseChildren: a start index past 2^32 - 1 is an error of its own here, which ends the walk; an optimised build wraps. Cutting the document and the two counts out of the response by their tags is not modelled: an answer is the document's events and the counts.
- TrackSort.Apply: the standard library's sorting algorithm is not visible, so the sort is done on values and copied back; the result is the same for any stable algorithm.
- TrackSort.Compare: lower-casing is an arbitrary function of each character, compared by code point.
- Listing.HandleItems: the parsers of `query=` and `sort=` are arbitrary functions from text to clauses and keys, and the choice of served format is an arbitrary rewriting of tracks that keeps their numbers; the vector is rebuilt rather than changed in place.
- Listing.ParseIndexRange: trimming and number parsing are arbitrary functions.
- PlaylistListing.PanePagesJoin: how artist, album and year are read off a playlist name is an arbitrary function of the name.
- Didl.DocumentReadsBack: an element nested inside a text field, an item or a container is not a part here; what the parser does with it is in `Step`.
- Didl.ParseDidlLite: XML tokenising, attribute decoding, entity names, numbers, durations, URLs and MIME types are library or table functions taken as arbitrary.
- BufferedBody.Body.DrainLoop: task scheduling is a list of reader actions at each wait; wakers, memory ordering and panics are not modelled, and a producer's script is finite although arbitrarily long.
- Ranges.OpenBySkipping: the limit of the one range as wide as all of u64 is not wrapped. The file is assumed not to change between scan and open, so its recorded size is its length.
- Responses.Items: text encoding into the wire charset is an arbitrary function; the login, update and databases responses would add only fixed trees.
- Transcode.ClassicAiffHeader: the sample rate bytes are the constant the code computes from a floating-point value; the floating-point conversion is not modelled.
- Artwork.EncodePict: image decoding, resizing, JPEG output and the artwork cache are library behaviour; the decoded pixels are the input.
- PictRoundTrip.BitmapRoundTrip: stated on bits; that QuickDraw shows a 1 as black is not modelled.
- The grouping of files into one playlist per subdirectory, format choice, session, server-info and content-code responses, and sort and search parsing would add only easy members.
- HTTP routing, headers, logging, mDNS, subprocesses, the Subsonic client and SSDP discovery are plumbing without a model.
