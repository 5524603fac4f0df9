# Proofs about the tools and examples around the VP8 and VP9 codecs

This project models the code that surrounds the codecs in this repository: the layering patterns of the
example encoders, the Y4M reader and writer, the MD5 hashing of decoded frames, the SSIM tool, the IVF and
WebM containers, the rate histogram, the comparison of images, the encoder's command line and the bracket
matching of the lint script. `dafny verify dfyconfig.toml` checks all of it with Dafny 4.11.

Code that changes state step by step is modelled by classes and methods with loops; each is proved against a
specification function, and the theorems are about those functions. Files are byte sequences with a position.
The codecs themselves are parameters: a coded frame is a header, which says what it predicts from and what it
refreshes, and a payload; how a picture comes out of a payload and its reference pictures is left open, so
that the layering theorems hold for every codec.

- `LayeredDecoding` says which pictures a decoder still gets right when it receives only a part of a run. A
  dependence analysis (`Decodable`) is proved sound for every codec and complete by one codec whose pictures
  record how they were made. A stream that holds only the received frames decodes to the same pictures.
- `TemporalLayers` holds the tables of all layering modes of the temporal encoder as flag words, proves what these
  words allow, and runs the frame loop: at any moment each output file decodes to the pictures of the full stream,
  as long as the codec puts no key frame of its own above the file's layer. `SyncPoints` says at which frames a
  base-layer decoder may switch up, exactly. `MultiResolution` adds the inserted key frame of the multi-resolution
  encoder, `SpatialLayers` the VP9 spatial pattern.
- `Y4mFilters`, `Y4mConvert` and `Y4mPlaneLaws` are the chroma converters: filters in place over lines of any
  stride in three loop segments, equal to one clamped convolution, and their two-dimensional compositions.
  `Y4mPixels` gives every sample of a converted plane as a rounded sum over six neighbours, with the taps in numbers.
  `Y4mHeader`, `Y4mInput`, `Y4mReader` and `Y4mImages` parse and print headers, size the buffers, fetch frames and
  close the loop from a written file back to the same bytes.
- `Md5` is RFC 1321 beside the streaming, unrolled implementation, `Md5Vector` a test vector of that RFC worked out
  by proof, `ImageOutput` the caller.
- `Ssim` is the structural similarity index with its bounds, `SsimFormula` its published form; `CompareImage` the
  flat and the blocked comparison.
- `Files`, `Ivf`, `Webm` and `Mkv` are the containers; `RateHist` the histogram; `StreamArgs` the argument vector.
- `Brackets`, `BracketScan`, `BracketLaws` and `AngleLaws` are the bracket matching of `tools/cpplint.py`.

Six properties one might expect turn out to need a condition, and the exact one is proved:

- An output file of the temporal encoder decodes to the pictures of the full stream if and only if it has, for each
  of its frames that is no key frame, the last key frame before it; it lacks one that the codec chose on its own
  above the file's layer (`TemporalLayers.TemporalSvcEncoder.OutputFilesAreFaithful`, `OutputFileWithoutKeyDiffers`).
- Hashing a frame and hashing the bytes written for it differ for every non-empty high bit depth image when the
  program was built without high bit depth support (`ImageOutput.HashMatchesFile`); an image of one sample shows
  it (`ImageOutput.SixteenBitSampleIsCut`). The decoders of such a build never hand out a high bit depth image,
  since `vp9/vp9_iface_common.c:56-71` sets the flag only in builds with that support, so that the difference is
  one of the two functions and not of the program.
- A WebM file that loads is read to its end if and only if it holds a block and does not end inside the first
  block of a last cluster of unknown size (`Mkv.FileIsRead`). Loading leaves out clusters without a block, so that
  those do no harm. The other files give the lists of clusters that are not read to their end
  (`Webm.ReadsEveryFrame`): no cluster at all, or an empty one in the last place. From a file cut short in that
  place, reading on after the failure can return a frame a second time (`Mkv.CutFileRepeats`).
- A Y4M file written for a non-empty picture, whose sizes do not overflow an int, opens again if and only if its
  depth is 8, 10 or 12 and there is memory for a frame (`Y4mReader.FileRoundTrip`). More than INT_MAX / 6 pixels
  make the header line fail to parse, but opening only prints a message and goes on, so that such a file can open
  all the same (`Y4mReader.TooLargeStillOpens`). A file written for an empty picture opens at any depth, if and
  only if the allocator provides zero bytes (`Y4mReader.EmptyPictureOpens`).
- Closing and reverse closing are inverse to each other from round, square and curly brackets, on every text
  (`BracketLaws.ReverseUndoesClose`), but not from angle brackets: the name of an operator function is looked for one
  character further to the left by the forward scan, so that `operator>` without a space ends a list for it only
  (`AngleLaws.OperatorWithoutSpace`).
- The spatial pattern fits the eight reference slots for at most four of the five possible layers
  (`SpatialLayers.SlotsFitExactly`).

## Model

| member | source | states |
|---|---|---|
| LayeredDecoding.DecodableIsFaithful | examples/vpx_temporal_svc_encoder.c:953-1004 | a frame that arrived and whose references are clean shows the full decode's picture, for every codec |
| LayeredDecoding.UndecodableIsWrong | examples/vpx_temporal_svc_encoder.c:953-1004 | any other frame that arrived shows a wrong picture under the tracing codec, so the condition is exact |
| LayeredDecoding.LowerLayersStayClean | examples/vpx_temporal_svc_encoder.c:280-605 | when every slot has a layer bound that references and updates respect, dropping higher layers leaves all lower frames decodable |
| LayeredDecoding.LayersStayCleanAfterKey | examples/vpx_temporal_svc_encoder.c:280-605 | with key frames in any layer, the lower frames are decodable while the last key frame arrived |
| LayeredDecoding.LostKeyRuins | examples/vpx_temporal_svc_encoder.c:953-1004 | after a lost key frame nothing is decodable until another key frame arrives |
| LayeredDecoding.LayerDropIsFaithful | examples/vp9_spatial_svc_encoder.c:574-653 | hence dropping frames above a spatial and temporal layer preserves every kept picture |
| LayeredDecoding.SubstreamIsFaithful | examples/vpx_temporal_svc_encoder.c:998-1004 | decoding a file that holds only decodable frames gives exactly the full decode's pictures of those frames |
| LayeredDecoding.UndecodableSubstreamDiffers | examples/vpx_temporal_svc_encoder.c:998-1004 | one undecodable frame in such a file makes its decode differ |
| TemporalLayers.FlagWordsDescribe | examples/vpx_temporal_svc_encoder.c:284-604 | every flag word allows exactly the references and updates of its pattern's description, and forces a key frame in position 0 of modes 0 to 10 only |
| TemporalLayers.DecimatorsMatchIds | examples/vpx_temporal_svc_encoder.c:284-604 | the layers up to k carry every n-th frame, n being the k-th rate decimator |
| TemporalLayers.SetTemporalLayerPattern | examples/vpx_temporal_svc_encoder.c:280-605 | the method fills the layer ids, decimators and flags of the mode and returns the period of the flags; every stored word allows the references and updates of the mode's pattern and forces a key frame in position 0 of modes 0 to 10 only |
| TemporalLayers.PatternRespectsBounds | examples/vpx_temporal_svc_encoder.c:284-604 | in every mode each of LAST, GOLDEN and ALTREF has a bound that all references and updates respect |
| TemporalLayers.LayerStreamIsFaithful | examples/vpx_temporal_svc_encoder.c:998-1004 | a run within the bounds, with key frames in any layer: the stream of layers 0 to k decodes to the full stream's pictures if the last key frame before each of its other frames belongs to it |
| TemporalLayers.LayerStreamWithoutKeyDiffers | examples/vpx_temporal_svc_encoder.c:998-1004 | otherwise it decodes to other pictures under the tracing codec |
| TemporalLayers.TemporalSvcEncoder.constructor | examples/vpx_temporal_svc_encoder.c:836-839 | the invariant of the run holds at its start |
| TemporalLayers.TemporalSvcEncoder.ResetKeyFlag | examples/vpx_temporal_svc_encoder.c:991-994 | after the first frame no flag word forces a key frame, except in mode 7: the array is the old one with that bit of its first word cleared |
| TemporalLayers.TemporalSvcEncoder.WriteToLayers | examples/vpx_temporal_svc_encoder.c:1000-1004 | a packet is appended to the files of its layer and above and to no other |
| TemporalLayers.TemporalSvcEncoder.TakePacket | examples/vpx_temporal_svc_encoder.c:997-1015 | one packet extends the run, and with it the files of its layer and above, keeping every file the stream of its layer |
| TemporalLayers.TemporalSvcEncoder.EncodeFrame | examples/vpx_temporal_svc_encoder.c:943-1020 | one turn of the frame loop with any number of packets, key frames included, keeps the invariant: every file holds the frames of its layer and below, and the run stays within the bounds |
| TemporalLayers.TemporalSvcEncoder.OutputFilesAreFaithful | examples/vpx_temporal_svc_encoder.c:943-1020 | at any moment, decoding the file of layer k shows the pictures of the complete run, for every mode, run length and codec, if none of its frames follows a key frame above layer k |
| TemporalLayers.TemporalSvcEncoder.OutputFileWithoutKeyDiffers | examples/vpx_temporal_svc_encoder.c:943-1020 | otherwise the file shows another picture under the tracing codec, when all frames but key frames predict from something |
| TemporalLayers.BaseKeysInTime | examples/vpx_temporal_svc_encoder.c:943-1020 | with key frames in the base layer only, the condition holds for every file |
| SyncPoints.HeldIsClean | examples/vpx_temporal_svc_encoder.c:450-602 | three flags per frame summarise the dependence analysis of a decoder that switches up |
| SyncPoints.SyncPointReproduces | examples/vpx_temporal_svc_encoder.c:450-550 | modes 8, 9 and 10: a decoder with only layer 0 before a sync point reproduces the full decode from there on, for every codec |
| SyncPoints.OnlySyncPointsReproduce | examples/vpx_temporal_svc_encoder.c:450-550 | entering anywhere else goes wrong within two frames |
| SyncPoints.Mode12NeverHeals | examples/vpx_temporal_svc_encoder.c:576-602 | mode 12, documented as having no sync points: every later frame above the base layer stays wrong |
| MultiResolution.SetTemporalLayerPattern | examples/vp8_multi_resolution_encoder.c:165-280 | the method writes the flag words of the pattern, each of which allows the references and updates described and forces no key frame, and leaves the rest of the array |
| MultiResolution.PatternsCoincide | examples/vp8_multi_resolution_encoder.c:178-278 | the 1-, 2- and 3-layer patterns allow what temporal modes 0, 8 and 10 allow, and never force a key frame |
| MultiResolution.SelectFlags | examples/vp8_multi_resolution_encoder.c:568-585 | a key frame is forced at frame 0 and at the insertion point only; otherwise the pattern's references and updates hold |
| MultiResolution.InsertedKeyDecides | examples/vp8_multi_resolution_encoder.c:568-585 | the dependence analysis of the stream of layers 0 to k counts its frames after an inserted key frame as right if and only if the key frame belongs to it |
| MultiResolution.InsertedKeyExact | examples/vp8_multi_resolution_encoder.c:568-585 | after an inserted key frame of the stream of layers 0 to k every frame of that stream shows the complete decode's picture for every codec; after one outside it, none does under the tracing codec |
| MultiResolution.SyncPointsSurviveKey | examples/vp8_multi_resolution_encoder.c:568-585 | an inserted key frame keeps a sync point if and only if it is in the base layer or comes after the switch: else every frame from the sync point on is wrong under the tracing codec |
| SpatialLayers.RefFrameConfig.SetBufferIdx | examples/vp9_spatial_svc_encoder.c:582-601 | the three buffer indices of a spatial layer |
| SpatialLayers.RefFrameConfig.ConfigureLayer | examples/vp9_spatial_svc_encoder.c:581-652 | one layer's references and refreshed slots become those of the pattern, the other layers stay |
| SpatialLayers.RefFrameConfig.SetFrameFlagsBypassModeEx0 | examples/vp9_spatial_svc_encoder.c:574-653 | the loop configures all layers of a superframe |
| SpatialLayers.SlotsFitExactly | examples/vp9_spatial_svc_encoder.c:574-653 | all slot indices stay below 8 if and only if there are at most four spatial layers |
| SpatialLayers.PatternIsLabelled | examples/vp9_spatial_svc_encoder.c:574-653 | a run that follows the pattern only references slots of no higher spatial and temporal layer |
| SpatialLayers.LayerDropPreservesPictures | examples/vp9_spatial_svc_encoder.c:1051-1082 | dropping all layers above (s, t) preserves every kept picture, even when some dropped frames still arrive |
| SpatialLayers.BaseSlotWriter | examples/vp9_spatial_svc_encoder.c:574-653 | in the complete run slot s was last written by spatial layer s of the last base superframe |
| SpatialLayers.EnhancementSlotWriter | examples/vp9_spatial_svc_encoder.c:574-653 | and slot n + s by spatial layer s of the last enhancement superframe, or by the first key frame |
| SpatialLayers.ReferencesWritten | examples/vp9_spatial_svc_encoder.c:574-653 | every slot that is referenced has been written: by the same spatial layer in the last base superframe, or in the same superframe by the base layer or the layer just below |
| SpatialLayers.PredictsFromExactly | examples/vp9_spatial_svc_encoder.c:574-653 | which frames every frame of the complete run predicts from, exactly |
| Y4mFilters.ShiftLine | y4minput.c:261-299 | the three loop segments write the clamped convolution of the line, for every length and stride, and touch nothing else |
| Y4mFilters.SlideUpLine | y4minput.c:368-404 | likewise for the filter that slides C_b up |
| Y4mFilters.HalveLine | y4minput.c:458-496 | likewise for the decimation by two, with its paired sums and shortened first output |
| Y4mFilters.SlideUpMirrorsSlideDown | y4minput.c:344-445 | reversing a line, sliding down and reversing again is sliding up |
| Y4mFilters.ConstantsStay | y4minput.c:205-209 | the taps of every filter add up to 128: constant lines stay constant |
| Y4mConvert.MapColsUnique | y4minput.c:344-445 | a plane whose columns are the filtered columns is the transformed plane |
| Y4mConvert.ShiftRows | y4minput.c:261-299 | filtering all rows of a plane, also inside one buffer |
| Y4mConvert.HalveRows | y4minput.c:760-815 | halving all rows of a plane, also inside one buffer |
| Y4mConvert.SlideUpCols | y4minput.c:368-407 | sliding all columns up; the rest of the buffer stays |
| Y4mConvert.SlideDownCols | y4minput.c:408-443 | sliding all columns down |
| Y4mConvert.HalveCols | y4minput.c:458-496 | halving all columns |
| Y4mConvert.Run42xpaldv | y4minput.c:344-445 | C_b is shifted and slid up, C_r shifted and slid down, through the scratch plane after both sources |
| Y4mConvert.Run422jpeg | y4minput.c:536-560 | both planes are halved vertically |
| Y4mConvert.Run422 | y4minput.c:601-630 | both planes are shifted and then halved vertically |
| Y4mConvert.Run444 | y4minput.c:760-820 | both planes are halved horizontally and then vertically |
| Y4mConvert.Convert | y4minput.c:344-820 | a converter leaves luma alone and makes the chroma planes exactly the transformed source planes, for every picture size |
| Y4mPixels.ConvertedSamples | y4minput.c:211-820 | every sample of a converted plane: the byte nearest to a sum with the filter's six taps over clamped neighbours, in two passes |
| Y4mPixels.ChromaSamples | y4minput.c:344-445 | C_b comes first and is slid up in 420paldv, C_r comes second and is slid down |
| Y4mPixels.PassUnique | y4minput.c:211-820 | these sums determine the plane |
| Y4mPlaneLaws.PaldvPlanesMirror | y4minput.c:344-445 | the 420paldv conversion of C_b is that of C_r in the vertical mirror |
| Y4mPlaneLaws.FlatPlanesStayFlat | y4minput.c:344-820 | every conversion leaves a flat plane flat with the same value |
| Y4mHeader.Y4mParseTags | y4minput.c:57-107 | the tag loop computes the left-to-right parse of all tags |
| Y4mHeader.HeaderRoundTrip | y4menc.c:15-54 | written tags parse if and only if the picture is non-empty and at most INT_MAX / 6 pixels; size, rate, interlacing and chroma type of a non-empty picture come back even if it is too large |
| Y4mHeader.HeaderText | y4menc.c:51-58 | the header line as text, with the numbers and the format's names in their places |
| Y4mHeader.OtherTagsParse | y4minput.c:89-104 | the pixel aspect ratio is read, unknown tags are ignored |
| Y4mInput.SizesConsistent | y4minput.c:884-1102 | for every chroma type the bytes read and converted fill the frame buffer exactly and the aux buffer holds source and scratch planes |
| Y4mInput.SamplingConsistent | y4minput.c:884-1102 | format, bits per pixel and decimation of a chroma type describe one sampling; forcing 4:2:0 yields 8-bit 4:2:0 |
| Y4mInput.ConverterOf | y4minput.c:884-1102 | which converter every chroma type gets, and which types are rejected when only 4:2:0 is wanted |
| Y4mInput.AcceptedSizesDefined | y4minput.c:184-191 | the size check keeps every int expression evaluated for the buffer sizes from overflowing, for every chroma type |
| Y4mInput.SizesFitInt | y4minput.c:187-191 | no size exceeds six times the picture, hence none exceeds INT_MAX |
| Y4mInput.FormatRoundTrip | y4menc.c:19-51 | depths 9, 14 and 16 are always rejected; otherwise the depth comes back, and the format exactly when the writer has a name for it |
| Y4mReader.CopyTag | y4minput.c:110-141 | reads one tag of at most 255 characters, or fails at the end of the file |
| Y4mReader.ParseTagsFrom | y4minput.c:147-193 | parses the header line and checks the mandatory tags and the size; after a failure the header keeps the fields read before it |
| Y4mReader.Y4mSource.Open | y4minput.c:843-1112 | opening yields the configuration of the header fields, parsed completely or not, and leaves the file where parsing stopped, or is rejected |
| Y4mReader.Y4mSource.FetchFrame | y4minput.c:1120-1162 | a fetch returns 1 and the converted picture, 0 at the end of the input or -1, and advances past the frame |
| Y4mReader.FrameHeaderSkipped | y4minput.c:1128-1143 | the frame header may carry up to 79 more characters, which are ignored |
| Y4mPixels.FetchedSamples | y4minput.c:1144-1156 | the frame buffer after a fetch: the bytes read, then grey for mono or the samples of the converted planes |
| Y4mReader.PlanesTile | y4minput.c:1165-1179 | the three planes of the image tile the frame buffer |
| Y4mReader.ParsedIsDefined | y4minput.c:843-1102 | opening a file whose header line parses overflows no int |
| Y4mReader.FileRoundTrip | y4menc.c:15-58 | a file written for a non-empty picture whose sizes do not overflow an int opens again if and only if its depth is 8, 10 or 12 and the allocator provides a frame; size, rate, depth and (exactly when expressible) format come back and the frames are fetched byte for byte |
| Y4mReader.WrittenIsDefined | y4menc.c:15-58 | neither does opening a written file of at most INT_MAX / 6 pixels |
| Y4mReader.TooLargeStillOpens | y4minput.c:866-868 | a file of 20000 by 20000 pixels, whose header line is refused, opens when 600 million bytes are provided |
| Y4mReader.EmptyPictureOpens | y4minput.c:866-868 | a file written for an empty picture opens at any depth, as 8-bit 4:2:0, if and only if the allocator provides zero bytes |
| Y4mImages.FetchedFrameWritesBack | vpxdec.c:304-325 | writing the image of a fetched frame writes its buffer, every byte once and in order |
| Md5.RoundFunctionsAgree | md5_utils.c:139-143 | the optimised round functions are F, G, H and I of section 3.4 of RFC 1321 |
| Md5.FastOperationsAgree | md5_utils.c:145-147 | any number of central steps are as many operations of section 3.4 |
| Md5.Md5Transform | md5_utils.c:154-235 | the 64 unrolled steps are the table-driven compression of one block |
| Md5.CountAdds | md5_utils.c:66-71 | two 32-bit counters with a carry count bytes modulo 2^64 |
| Md5.OrIsPlus | md5_utils.c:125-127 | joining the high counter's shifted bits with the carried ones by a bitwise or is adding them |
| Md5.LengthWords | md5_utils.c:121-126 | the shifted counters are the bit length of section 3.2 |
| Md5.PadBlocks | md5_utils.c:104-120 | the padded message ends in one or two blocks, depending on the room left |
| Md5.AbsorbAppend | md5_utils.c:63-98 | absorbing whole blocks first and the rest later is absorbing all |
| Md5.Md5Context.Md5Update | md5_utils.c:63-98 | an update appends its data to the message hashed |
| Md5.Md5Context.Md5Final | md5_utils.c:104-133 | the result is the digest of sections 3.1 to 3.5 of the whole message |
| Md5.HashPieces | md5_utils.c:49-133 | however a message is split into updates, the result is its digest |
| Md5Vector.RotlRotates | md5_utils.c:145-147 | the two shifts joined by or are the rotation, for every number of bits |
| Md5Vector.AlphabetDigest | md5_utils.c:49-235 | the digest of the 26 small letters is the one published in section A.5 of RFC 1321 |
| ImageOutput.UpdateImageMd5 | vpxdec.c:285-303 | hashing row by row hashes the bytes of all planes |
| ImageOutput.WriteImageFile | vpxdec.c:304-325 | the file gets the bytes of all planes, with the sample size of the build |
| ImageOutput.HashMatchesFile | vpxdec.c:285-325 | both describe the same bytes if and only if high bit depth is compiled in, unused, or the image has no samples |
| ImageOutput.SixteenBitSampleIsCut | vpxdec.c:285-325 | an image of one 16-bit sample is hashed in six bytes and written in three by a build without high bit depth support |
| Ssim.SumsFit | tools/tiny_ssim.c:184-203 | for samples of at most 12 bits no sum over 64 samples reaches 2^32 |
| Ssim.SsimParms8x8 | tools/tiny_ssim.c:184-203 | the five 32-bit counters hold the exact sums of the window |
| Ssim.ConstantsArePublished | tools/tiny_ssim.c:23-28 | the constants are (0.01 L)^2 and (0.03 L)^2 scaled by 64^2, rounded to the nearest integer |
| Ssim.SpreadBounds | tools/tiny_ssim.c:227-254 | Cauchy-Schwarz: the covariance term is at most the variance term in size, equal exactly for windows that differ by a constant |
| Ssim.SimilarityBounds | tools/tiny_ssim.c:227-254 | the similarity of two windows lies in [-1, 1], is 1 exactly for equal windows, and is symmetric |
| Ssim.Ssim2 | tools/tiny_ssim.c:272-292 | the loops compute the average over the grid of 8x8 windows |
| Ssim.AverageBounds | tools/tiny_ssim.c:272-292 | the average is defined exactly from 8 by 8 on, lies in [-1, 1], is 1 exactly when the images agree up to multiples of 4, and is symmetric |
| SsimFormula.SimilarityIsIndex | tools/tiny_ssim.c:227-254 | the similarity from the five counters is the published index from means, variances and covariance of the samples |
| SsimFormula.AverageIsMean | tools/tiny_ssim.c:272-292 | the result is the plain mean of that index over all windows, on every fourth row and column |
| Ivf.WriteFileHeader | ivfenc.c:16-43 | the header bytes stored at offsets are the 32-byte file header |
| Ivf.WriteFrameHeader | ivfenc.c:45-52 | a frame header is the size and the 64-bit time stamp |
| Ivf.FrameHeaderFields | ivfenc.c:45-52 | size and signed time stamp can be read back from a frame header |
| Ivf.HeaderLayout | ivfenc.c:16-43 | where every field of the file header is, as bytes in numbers |
| Ivf.FrameHeaderLayout | ivfenc.c:45-52 | a frame header in numbers: size and two's complement time stamp, low byte first |
| Ivf.RecordLayout | ivfenc.c:45-52 | every frame's header and data are at their place in the file |
| Ivf.PacketFits | vpxenc.c:1488-1521 | a packet that continues or starts a frame as it should turns the bytes of the frames so far into those with the packet added |
| Ivf.IvfWriter.WritePacket | vpxenc.c:1488-1521 | the bytes of the file after any packet in any order; packets of whole frames and fragments in their order: the file holds all complete frames and the open one, with the size patched by the last fragment |
| Ivf.IvfWriter.Close | vpxenc.c:1302-1321 | closing in any state writes a header with the number of frames over the first bytes; with no frame open the file is that header and all frames |
| Ivf.WrittenFrames | vpxenc.c:1481-1525 | the frames written one by one are the packets grouped by the fragment flag, with their data joined |
| Ivf.WriteStream | vpxenc.c:1481-1525 | for every well-formed packet sequence the file is the header with the frame count and one record per frame |
| Ivf.VideoWriter.WriteFrame | video_writer.c:72-80 | a frame is appended and counted |
| Ivf.VideoWriter.Close | video_writer.c:61-70 | the file becomes the header with the real count and all frames |
| Ivf.FileIsIvf | ivfdec.c:40-71 | an IVF file is recognised by its signature and gives code and size; others are rewound |
| Ivf.ReadFrame | ivfdec.c:73-112 | one frame is read into a buffer that grows when too small; 1 and the end-of-file state when there is none |
| Ivf.StreamRoundTrip | ivfdec.c:73-112 | the reader gives back header fields, frame count and every frame to the end of the file, the latter if and only if all frames are at most 256 MiB |
| Webm.WebmInput.NextBlock | webmdec.cc:121-176 | the search over clusters and entries ends and finds the next block of the track, the end, or a failure |
| Webm.WebmInput.ReadFrame | webmdec.cc:121-196 | one read does one step of the iterator and fills the buffer with the frame |
| Webm.WebmInput.GuessFramerate | webmdec.cc:198-224 | the guess restores the initial position; the rate comes from the frames read |
| Webm.ToInt32Wraps | webmdec.cc:209-211 | the conversion to an int keeps the value modulo 2^32 |
| Webm.GuessLooksAtFirstSecond | webmdec.cc:198-224 | these are the frames up to the first at or after one second, at most 50 |
| Webm.StepReturnsNext | webmdec.cc:121-196 | a read returns the first frame still ahead and moves past it |
| Webm.ReadsEveryFrame | webmdec.cc:121-196 | over a list of loaded clusters any number of reads return every frame of the track once and in order and then the end for ever, if and only if there is a cluster and none is empty |
| Webm.EmptyClusterRepeats | webmdec.cc:121-196 | with an empty last cluster in that list the read after the failure returns a frame again |
| Mkv.Segment.DoLoadCluster | third_party/libwebm/mkvparser/mkvparser.cc:1035-1309 | one step looks at one cluster, or parses on in one of unknown size; it gets nearer to the end of the file and keeps the clusters loaded those with a block |
| Mkv.Segment.Load | third_party/libwebm/mkvparser/mkvparser.cc:1450-1477 | loading ends: it fails exactly when the file ends where a header is needed in a cluster of unknown size, and else the clusters with a block are loaded, in order |
| Mkv.FilesThatLoad | third_party/libwebm/mkvparser/mkvparser.cc:1182-1309 | which files load, by the last cluster and the end of the file, and which blocks are then whole |
| Mkv.LoadedFrames | third_party/libwebm/mkvparser/mkvparser.cc:1182-1279 | leaving out clusters without a block leaves out no frame |
| Mkv.LoadedClusters | third_party/libwebm/mkvparser/mkvparser.cc:1182-1279 | a loaded cluster is empty only if it is cut short in its first block; none is loaded exactly when no cluster has a block |
| Mkv.FileIsRead | webmdec.cc:62-196 | for every file that loads: all frames once and in order and then the end for ever if it holds a block and is not cut short in the first block of a cluster of unknown size, and otherwise all frames and then a failure; a last cluster of known size that the file cuts short counts as absent |
| Mkv.CutFileRepeats | webmdec.cc:121-196 | of such a cut file the read after the failure returns a frame again |
| RateHist.WindowIsRecent | rate_hist.c:100-109 | the window holds exactly those of the last packets that are recent enough |
| RateHist.SinceWhen | rate_hist.c:100-113 | the average counts from the newest packet that is too old, or from the oldest in the ring when none is |
| RateHist.RateIsRecorded | rate_hist.c:86-116 | the rate in terms of the packets alone: when one is recorded, from when on, over which bytes, and its value |
| RateHist.BinRange | rate_hist.c:114-117 | bins are a fiftieth of the target wide and the last is open |
| RateHist.RateHistogram.SumWindow | rate_hist.c:100-109 | the loop over the ring sums the sizes in the window |
| RateHist.RateHistogram.Update | rate_hist.c:80-126 | the ring keeps the last packets and each bin its number, least and greatest of the rates recorded; a rate is recorded exactly when the delay is over, there is a target and time has passed, and it is the bits of the recent packets in a second |
| RateHist.AllCounted | rate_hist.c:115-125 | the counts of all bins add up to the number of rates |
| RateHist.SummaryCounts | rate_hist.c:117-125 | a bin counts exactly the rates in its range, and its ends are among them |
| RateHist.RangesDisjoint | rate_hist.c:115-125 | bins in use have disjoint ranges in increasing order |
| RateHist.MergeSmallest | rate_hist.c:152-190 | one round merges the smallest bucket with its smaller neighbour, meets the asserts and finds the new extrema |
| RateHist.MergesLeastWithLesser | rate_hist.c:150-158 | a round merges the first of the least buckets with its lesser neighbour, the right one of two equals |
| RateHist.MergeHistBuckets | rate_hist.c:128-194 | the rounds leave the result of repeated merging and return the greatest count |
| RateHist.MergingCoarsens | rate_hist.c:128-194 | the result is a coarsening into contiguous groups, as many as allowed, increasing, with the same total |
| RateHist.BarsFit | rate_hist.c:237-245 | every bar has 1 to 40 characters, the longest 40 |
| RateHist.BarsProportional | rate_hist.c:237-239 | bars are proportional to the counts, rounded down, but at least one character long |
| RateHist.Compact | rate_hist.c:286-289 | the buckets in use move to the front in order |
| RateHist.UsedBins | rate_hist.c:286-289 | they are increasing and keep the total |
| RateHist.ShowRateHistogram | rate_hist.c:278-294 | what is shown for a histogram: at most the maximum of buckets, their counts adding up to all rates, bars scaled by the greatest count and in bounds |
| CompareImage.ComparePlane | tools_common.c:580-591 | comparing rows of bytes is comparing all samples |
| CompareImage.SameRowsIsSamePlane | tools_common.c:580-591 | planes of like images have equal rows of bytes if and only if they have equal samples |
| CompareImage.SampleFromBytes | tools_common.c:600-640 | which bytes make up a sample, and in which order |
| CompareImage.ChromaSizes | tools_common.c:560-565 | chroma planes are luma halved and rounded up, as when images are hashed and written |
| CompareImage.CompareImg | tools_common.c:560-594 | a match means equal format, size and bytes in all planes, which for like images means equal samples; images of which only one has high bit depth never match |
| CompareImage.SearchPlane | tools_common.c:709-736 | the blocked search reports the first place, row by row, of the first block in which the samples differ, or there is none |
| CompareImage.FindMismatch | tools_common.c:693-780 | the same for all three planes |
| CompareImage.ComparisonsAgree | tools_common.c:560-780 | for images of the same format and size a match is reported if and only if no location is |
| CompareImage.TestDecode | vpxenc.c:1643-1660 | a mismatch is always reported with a location |
| StreamArgs.ArgMatch | args.c:38-76 | one argument against one option: value, number of arguments used, or a fatal error |
| StreamArgs.MatchIsGiven | args.c:38-76 | an argument matches exactly when it names the option, and the value is what follows the equals sign or the next argument, whole; fatal exactly when an option is given no value it needs or one it does not take |
| StreamArgs.OptionIsSet | vpxenc.c:949-1087 | the first option named is set to the value given to it, or the program ends |
| StreamArgs.AllControlsSet | vpxenc.c:1089-1113 | otherwise every control named is set to the value given to it, in order |
| StreamArgs.FormsOfOption | args.c:38-76 | --name=v and -n v give the value v in one and two arguments, --name and -n give none |
| StreamArgs.ForeignIsLeft | args.c:38-76 | whether an argument is taken as an option does not depend on the arguments after it |
| StreamArgs.ParseStreamParams | vpxenc.c:909-1112 | one stream's pass compacts the vector in place, inside its terminator, to what the stream leaves |
| StreamArgs.ParseStreams | vpxenc.c:1739-1751 | the loop over the streams ends and leaves the vector of the last pass |
| StreamArgs.StreamsInOnePass | vpxenc.c:1739-1751 | the repeated passes do what one pass from left to right does: the same settings per stream and the unconsumed arguments in order, without separators |
| StreamArgs.LineReadBack | vpxenc.c:1739-1751 | a command line written for several streams is read back: each stream's settings with their values in order, everything else left over in order |
| StreamArgs.LeftoversForeign | vpxenc.c:1739-1757 | nothing left over is an option or a separator |
| BracketScan.FindEndOfExpressionInLine | tools/cpplint.py:1519-1594 | the scan of one line with the shared stack, angle brackets included |
| BracketScan.CloseExpression | tools/cpplint.py:1597-1638 | the scan over all lines |
| BracketScan.FindStartOfExpressionInLine | tools/cpplint.py:1641-1715 | the backward scan of one line |
| BracketScan.ReverseCloseExpression | tools/cpplint.py:1718-1753 | the backward scan over all lines |
| Brackets.CloseIsMatching | tools/cpplint.py:1519-1594 | the forward scan finds q exactly when the text between is balanced and q closes p |
| Brackets.OpenIsMatching | tools/cpplint.py:1641-1715 | the backward scan finds p under the same condition |
| BracketLaws.CloseFindsMatch | tools/cpplint.py:1597-1638 | from a round, square or curly bracket CloseExpression lands just after a bracket exactly when that is the balanced match, whatever angle brackets and semicolons are in between |
| BracketLaws.ReverseFindsMatch | tools/cpplint.py:1718-1753 | from such a bracket ReverseCloseExpression lands on a bracket exactly when that is the balanced match |
| BracketLaws.ReverseUndoesClose | tools/cpplint.py:1597-1753 | from such brackets closing and reverse closing are inverse to each other, on every text |
| BracketLaws.CloseIsUndone | tools/cpplint.py:1597-1753 | every successful closing from such a bracket is undone by reverse closing |
| AngleLaws.ListIsClosed | tools/cpplint.py:1519-1638 | a list of template arguments is closed at its own angle bracket, past nested lists, other brackets, arrows and operator functions |
| AngleLaws.ListIsOpened | tools/cpplint.py:1641-1753 | and opened again from there, past those and spaced comparisons |
| AngleLaws.OperatorWithoutSpace | tools/cpplint.py:1571-1574 | the two scans disagree about operator> without a space |

## Left out

- The codecs, the libraries behind the WebM reader and writer, and image scaling: they are parameters or abstract lists.
- Effects on the entropy context (the NO_UPD_ENTROPY flag).
- SyncPoints.SyncPointReproduces: the run uses every reference and update the flags allow; an encoder that skips an allowed update could lose a sync point. VP8's own copy of GOLDEN to ALTREF without pending update flags is not modelled.
- Layering mode 13, which the switch treats like 12 although the table of layer counts has no entry for it.
- SpatialLayers.LayerDropPreservesPictures: assumes the only key frame at the start; pattern ex1 and the superframe index are not modelled.
- Y4mReader.Y4mSource.Open: excludes header lines that do not parse and whose sizes then overflow an int, which is undefined in C; an open after which the picture has a negative width or height is modelled, fetching frames from it is not.
- Y4mReader.Y4mSource.FetchFrame: says nothing about the buffer after a failed read.
- Y4mHeader.HeaderRoundTrip: integers in tags that overflow an int, and output cut short by a small buffer, are not modelled.
- The 4:1:1 conversion of Y4M, which opening rejects before use.
- Md5.Md5Context.Md5Update: models a little-endian machine; the byte swap of big-endian ones is left out.
- ImageOutput.WriteImageFile: short writes and other I/O errors are left out here and in the containers.
- Ssim.Similarity: exact arithmetic over reals; the rounding of doubles is left out, and so are PSNR and the weighting of planes.
- Ivf.IvfWriter.WritePacket: what the frames of a file are is said only for packets in order (a frame starts with a packet without a positive partition number); the fragments of one frame are not interleaved with another stream's, although the source keeps their state in variables shared by all streams; the WebM writer, statistics packets and first passes are left out.
- Ivf.ReadFrame: allocation always succeeds; the frame rate guess from the header is left out.
- Webm.WebmInput.ReadFrame: blocks have at least one frame, and reading a frame's bytes or parsing a block does not fail.
- Mkv.Segment.Load: a file is the sequence of its clusters; elements of a cluster other than blocks and its time stamp, elements that follow a cluster of unknown size other than another cluster or the index, headers, malformed elements and preloaded clusters are left out.
- Webm.WebmInput.GuessFramerate: time stamps are not negative.
- RateHist.RateHistogram.Update: time stamps in milliseconds are given, do not decrease, and rates fit an int; the conversion from the time base is left out.
- RateHist.ShowRateHistogram: the printed text and column widths are left out.
- CompareImage.FindMismatch: strides are not negative and row offsets do not wrap, since the source multiplies them as unsigned numbers and a negative one would address memory outside the image, also in the flat comparison; chroma shifts are at most 6; the twins for 8 and 16 bits are one method over a sample function, with high bit depth support compiled in.
- StreamArgs.ParseStreamParams: the meaning of settings and the parsing of values are one parameter that may refuse a value.
- AngleLaws.ListIsClosed: from angle brackets the conditions are sufficient, for lists within one line; a shift inside a list and lists that the heuristics close elsewhere are modelled, but no law is claimed for them.
- The regular expressions and all other checks of `tools/cpplint.py`, warnings, statistics files, and the small example programs: they would only add easy members.
