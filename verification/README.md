# LWA-MCP in Dafny

These modules model the stateful cores of the LWA-MCP server and prove what they promise. Each module follows one
source file, or one part of a large one:

- `Glob`, `WriteOwnership`: glob scopes of the write-ownership registry, with grants, delegations and revocations.
- `Png`, `PetRenderer`: the PNG writer, the chunk walk, and the check that decides from filtered residuals whether an
  image shows anything, proved against decoding the whole image (section 6 of RFC 2083).
- `LedgerSlicer`: the depth-first search over the dependencies of a phase.
- `Sixel`, `Kitty`, `KittySequence`, `ImageCompositor`: the image decoders, the writer of Kitty sequences and the
  stream around them; `SixelPicture` and `StreamImages` say what a Sixel text paints and what one sequence in the
  stream does, by the text alone.
- `TerminalProtocol`: the escape-sequence filter and the text buffer behind it; `TerminalScreen` says what the buffer
  shows, cell by cell.
- `PromptEditor`: the multi-line editor.
- `Preflight`: single-use plan tokens with confirmation and expiry.
- `ProviderPolicy`, `Routing`, `QuotaFallback`: provider pins, the choice of a route, and the fallback loop.
- `ProbeCache`: provider probes, as steps between awaits taken by any number of callers in any order.
- `TaskLedger`: task rows beside their log of events, as transactions in any order.
- `AgentsSync`, `AgentsManifest`: the managed block of AGENTS files, and one manifest applied to many files.
- `Text`: searching, splitting and joining strings.

An object the source updates in place is a class here. Its methods are proved equal to functions on values, and the
laws are lemmas about those functions, over every run. Code that only computes is functions. Beside the laws about runs,
each main operation has a law that says what it does in the fields of its inputs alone, without the function that
computes it.

Where the code does not meet a property one would expect, the model keeps the code and a lemma says exactly when the
property holds:

- Matching a delegated scope as text against an owner's scope is sound exactly when the owner's scope has no `?`
  (`Glob.CoverSoundIff`, for scopes without classes).
- The overlap test of a class-free scope is exact, whatever it is compared with, exactly when the scope is plain text or
  consists of wildcards only, with a `*` and at most two `?`; for every other one there is a scope it misses
  (`Glob.ClashExactIff`, `Glob.ClashMisses`).
- Rendering a managed block twice is the same as rendering it once exactly when the file's first start marker is
  followed by an end marker (`AgentsSync.IdempotentIff`).
- Outside manual mode, at every head of the fallback loop that a run reaches behind a hop, exhausted quota is answered
  by another hop exactly when the pin of the hop before has run out and some model of the catalog is eligible for the
  next request (`QuotaFallback.NextHopIff`).
- A session keeps its pin through pinnings, clearings and lookups exactly as long as none of a short list of operations
  comes along; a lookup by another session past the reset of the global pin is one (`ProviderPolicy.PinHeldIff`).
- Sixel raster attributes in their usual form are refused, and no declared size is ever used (`Sixel.RasterIsRejected`,
  `Sixel.NothingDeclared`), although the code reads as if it meant to use them.
- A caller of the probe cache is answered under its own configuration fingerprint exactly when, as it called, its row
  was fresh, no probe of its provider was in flight, or the one in flight had that fingerprint
  (`ProbeCache.OwnFingerprintIff`; `ProbeCache.JoiningIgnoresFingerprint` is an input where it is not).
- `create_task` commits its two statements one by one, so a task's log starts with `created` exactly when no other
  event of the task was logged in between (`TaskLedger.StartsWithCreationIff`; `TaskLedger.ClaimBeforeCreation` is an
  input where one is).
- Backspace leaves text selected exactly when an anchor stood at the cursor (`PromptEditor.BackspaceSelectsIff`;
  `PromptEditor.BackspaceSelects` is an input where the selection then ends behind the text).
- After a successful revoke, a delegate's requests raise unless ownership records before the first delegation let them
  through (`WriteOwnership.RevocationIsFinal`).

Functions that the source takes from libraries are parameters: `deflate`, `inflate` and `crc` for zlib, `b64decode` for
base64, `printable` for `str.isprintable`, `expand` for the template processing of `re.sub`, and `Reader` for the regular
expressions on ledger lines. Clocks and results of provider calls are parameters too. Lemmas name what they need of
them, such as `inflate(deflate(b)) == Some(b)`.

## Model

| member | source | states |
|---|---|---|
| Glob.TextMatchIsInclusion | src/lwa_mcp/write_ownership.py:86-89 | When no atom of the parent admits `*` or `?`, a class-free child that matches the parent as text denotes only names the parent denotes. |
| Glob.CoverSoundIff | src/lwa_mcp/write_ownership.py:86-89 | For a class-free parent, covering by text implies language inclusion for every class-free child if and only if the parent has no `?`. |
| Glob.RigidCoverSound | src/lwa_mcp/write_ownership.py:86-89 | The inclusion lifted to whole patterns: a rigid parent, classes allowed, covers soundly. |
| Glob.ClassChildEscapes | src/lwa_mcp/write_ownership.py:86-89 | A child with a class can escape a parent with `*` and literals only. |
| Glob.ClashIsReal | src/lwa_mcp/write_ownership.py:31-32 | The overlap test raises no false alarm on class-free scopes: the two really share a path. |
| Glob.ClashExactIff | src/lwa_mcp/write_ownership.py:31-32 | For a class-free scope, the test fires exactly on the class-free scopes it shares a path with, if and only if it is plain text or wildcards only with a `*` and at most two `?`. |
| Glob.ClashMisses | src/lwa_mcp/write_ownership.py:31-32 | For every other class-free scope a partner is constructed that shares a path with it and is not seen. |
| Glob.ClassReads | src/lwa_mcp/write_ownership.py:30-32 | `[body]` and `[!body]` are read as classes, with a `]` at the very start of the body standing for itself. |
| Glob.ClassAccepts | src/lwa_mcp/write_ownership.py:30-32 | A class matches one character exactly when it is, or for `[!...]` is not, one of its characters or within one of its ranges; the rest of the pattern matches the rest of the name. |
| Glob.BracketAlone | src/lwa_mcp/write_ownership.py:30-32 | A bracket that is never closed stands for itself. |
| WriteOwnership.OwnershipRegistry.Grant | src/lwa_mcp/write_ownership.py:25-37 | The loop over all records finds the first overlapping scope and then leaves the registry alone; otherwise the record is appended. |
| WriteOwnership.OwnershipRegistry.Delegate | src/lwa_mcp/write_ownership.py:39-55 | Appends a delegation only when some live ownership of the issuer covers it and no record but the issuer's own overlaps. |
| WriteOwnership.OwnershipRegistry.Revoke | src/lwa_mcp/write_ownership.py:57-70 | Marks every delegation to the delegate on the task, or raises and leaves the stored records as they were. |
| WriteOwnership.OwnershipRegistry.Authorize | src/lwa_mcp/write_ownership.py:72-84 | Decides by the first record of the pair that is revoked, expired or matching. |
| WriteOwnership.OverlapOnlyByDelegation | src/lwa_mcp/write_ownership.py:25-70 | In every reachable registry two records overlap by the registry's test only between an owner and a delegation it issued on that task. |
| WriteOwnership.DelegationSound | src/lwa_mcp/write_ownership.py:39-55 | In every reachable registry with rigid owner scopes and class-free delegated scopes, every path of a delegation is a path of its issuer's ownership. |
| WriteOwnership.AuthorizedWithinOwnership | src/lwa_mcp/write_ownership.py:72-89 | Under the same condition nobody is let through to a path that no ownership of the task accepts. |
| WriteOwnership.PlainScopeIsExclusive | src/lwa_mcp/write_ownership.py:25-84 | A path granted as plain text is let through only for its owner's task, to the owner or a delegate of the owner. |
| WriteOwnership.RevocationIsFinal | src/lwa_mcp/write_ownership.py:57-84 | Whatever is granted or delegated after a successful revoke, the pair's requests raise unless ownerships before its first delegation accept; they always raise when that delegation came first. |
| WriteOwnership.AuthorizeAllowsIff | src/lwa_mcp/write_ownership.py:72-84 | A request is let through if and only if some record of the pair is unrevoked, unexpired and accepts the path, and no record of the pair before it is revoked or expired. |
| WriteOwnership.AuthorizeRaisesIff | src/lwa_mcp/write_ownership.py:72-84 | It raises if and only if some record of the pair is revoked or expired and no live one before it accepts the path; the first such record names the error. |
| WriteOwnership.GrantSucceedsIff | src/lwa_mcp/write_ownership.py:25-37 | `grant` succeeds if and only if there are scopes and none matches, as text, a scope of any record in either direction; it then adds exactly that record. |
| WriteOwnership.DelegateSucceedsIff | src/lwa_mcp/write_ownership.py:39-55 | `delegate` succeeds if and only if an unrevoked ownership of the issuer covers every scope and all records but the issuer's own on the task stay apart; otherwise nothing changes. |
| WriteOwnership.RevokeSucceedsIff | src/lwa_mcp/write_ownership.py:57-70 | `revoke` succeeds if and only if the task has a delegation to the delegate and an ownership of the actor; it marks exactly those delegations. |
| WriteOwnership.GrantStands | src/lwa_mcp/write_ownership.py:25-84 | Over every run: what is granted to an actor with no earlier record on the task is open to it until the grant expires, whatever comes later, and raises from then on. |
| Png.UnfilterInterleave | src/lwa_mcp/pet_renderer.py:190-195 | Rows written with filter type 0 decode to themselves. |
| Png.WalkWritten | src/lwa_mcp/image_compositor.py:88-93 | Walking the chunks of a written file gives exactly the compressed scanlines, and the header holds the size. |
| Png.WalkCollects | src/lwa_mcp/pet_renderer.py:211-219 | From any list of chunks the walk collects the payloads of the IDAT chunks in order. |
| PetRenderer.AlphaFollowsResidual | src/lwa_mcp/pet_renderer.py:199-205 | Below a row without alpha, for each filter type 0 to 4, a decoded row has zero alpha exactly when its residuals have. |
| PetRenderer.IdatLoop | src/lwa_mcp/pet_renderer.py:211-219 | The walk over the chunks collects the data of exactly the IDAT chunks, clipped at the end of the file. |
| PetRenderer.ResidualLoop | src/lwa_mcp/pet_renderer.py:224-234 | The row loop finds a nonzero alpha residual if and only if some row has one. |
| PetRenderer.HasVisibleAlpha | src/lwa_mcp/pet_renderer.py:198-234 | The check with all its guards, and the fallback answer when the image is not one it can read. |
| PetRenderer.ResidualCheckIsExact | src/lwa_mcp/pet_renderer.py:198-234 | For every image with valid filter types and enough raw bytes, the check answers true exactly when some pixel of the fully decoded image has nonzero alpha. |
| PetRenderer.FileCheckIsExact | src/lwa_mcp/pet_renderer.py:198-234 | The same for the whole check on a file: signature, 8-bit RGBA header, IDAT data that inflate to such rows. |
| PetRenderer.BlankIff | src/lwa_mcp/pet_renderer.py:198-234 | The answer is false if and only if the file is an 8-bit RGBA PNG of at least 26 bytes whose image data inflate to height*(4*width+1) bytes or more and whose alpha residuals, found by their positions, are all zero; every other file counts as visible. |
| PetRenderer.WrittenVisible | src/lwa_mcp/pet_renderer.py:190-234 | A written file is judged visible exactly when one of its rows has alpha. |
| PetRenderer.SpriteScanlines | src/lwa_mcp/pet_renderer.py:404-417 | The nested loops build the rows of the scaled sprite, each behind filter byte 0. |
| PetRenderer.SpritePixel | src/lwa_mcp/pet_renderer.py:404-417 | Each sprite cell becomes a scale by scale block of its palette colour; short rows are padded transparent. |
| PetRenderer.SpriteImage | src/lwa_mcp/pet_renderer.py:404-417 | The sprite file decodes to the scaled sprite and is judged visible exactly when some cell has alpha. |
| LedgerSlicer.Sections | src/lwa_mcp/ledger_slicer.py:21-31 | The loop files every line under the last phase heading above it, joining repeated headings. |
| LedgerSlicer.SectionIsItsLines | src/lwa_mcp/ledger_slicer.py:21-31 | A section is exactly the lines, in order, below which no other heading came between them and a heading of its name. |
| LedgerSlicer.GraphTells | src/lwa_mcp/ledger_slicer.py:40-49 | The graph has a node for every phase with a heading, and an edge exactly for a name that some dependency line of the section lists, each once. |
| LedgerSlicer.Search.Visit | src/lwa_mcp/ledger_slicer.py:57-68 | The recursive search terminates; it succeeds with a settled set of finished phases and its stack restored, and an error names a real cycle or a really missing dependency. |
| LedgerSlicer.Check | src/lwa_mcp/ledger_slicer.py:50-70 | Passes if and only if every phase reachable from the active one exists and none is on a cycle. |
| LedgerSlicer.SliceLedger | src/lwa_mcp/ledger_slicer.py:34-73 | Succeeds exactly for a declared active phase with sound dependencies; the selection is that phase and its dependencies, all distinct; every error is true of the ledger. |
| LedgerSlicer.SettledReach | src/lwa_mcp/ledger_slicer.py:67-68 | What a settled set reaches is declared, settled and on no cycle. |
| LedgerSlicer.JustifiedIsUnsound | src/lwa_mcp/ledger_slicer.py:57-68 | A justified error rules out success. |
| Sixel.PaintLoop | src/lwa_mcp/image_compositor.py:185-193 | The loop over six bits paints what the recursive meaning of a sign paints. |
| Sixel.RepeatLoop | src/lwa_mcp/image_compositor.py:137-138 | The repeat loop paints like that many signs, or is refused like them. |
| Sixel.Turn | src/lwa_mcp/image_compositor.py:120-155 | One turn of the loop reads one control and gives the index behind it. |
| Sixel.BodyLoop | src/lwa_mcp/image_compositor.py:120-155 | The loop terminates and computes the run of the whole body, or its first rejection. |
| Sixel.Decode | src/lwa_mcp/image_compositor.py:104-165 | Size and scanlines of the decoded image, or the rejection. |
| Sixel.RunIsMeaning | src/lwa_mcp/image_compositor.py:120-155 | Decoding the spelling of any token list computes the meaning of the tokens. |
| Sixel.AcceptedIsTokens | src/lwa_mcp/image_compositor.py:120-155 | Every accepted body is the spelling of a token list. |
| Sixel.RunLengthIsTransparent | src/lwa_mcp/image_compositor.py:125-139 | Writing out every repeat gives the same pixels, palette and position, or the same rejection. |
| Sixel.RunInBounds | src/lwa_mcp/image_compositor.py:185-193 | Every painted pixel lies inside the width and height limits. |
| Sixel.DecodedExtent | src/lwa_mcp/image_compositor.py:156-164 | An accepted image has exactly the painted extent, is not empty and obeys all three limits. |
| Sixel.RowsDecode | src/lwa_mcp/image_compositor.py:160-164 | There are h*(4w+1) scanline bytes, which decode to the painted colours, black elsewhere, all opaque. |
| SixelPicture.PictureIsDots | src/lwa_mcp/image_compositor.py:120-193 | A text of tokens is accepted if and only if every sign stands inside the width and every new line inside the height, else rejected for the first that does not; each pixel has the colour in force at the last sign whose binary digit for that row is 1. |
| SixelPicture.DecodedIsDots | src/lwa_mcp/image_compositor.py:104-193 | The image of a text of tokens has the size its dots reach and decodes to their colours, black and opaque elsewhere; it is refused without dots, above the pixel limit, or with the reason of the first token that does not pass. |
| SixelPicture.CoversIsBit | src/lwa_mcp/image_compositor.py:188-191 | Row k of a sign is painted exactly when binary digit k of its code minus 63 is 1, the lowest digit being the top row. |
| Sixel.ForeignRejected | src/lwa_mcp/image_compositor.py:151-155 | A character outside `?` to `~` that starts no control is refused. |
| Sixel.RepeatRejected | src/lwa_mcp/image_compositor.py:125-135 | A repeat without a sign behind it is refused, for its count when that is above the width limit. |
| Sixel.NothingDeclared | src/lwa_mcp/image_compositor.py:107-114 | No body ever declares a size. |
| Sixel.RasterIsRejected | src/lwa_mcp/image_compositor.py:107-114 | Raster attributes written as digits, `;`, digits are always refused. |
| Kitty.PendingBounded | src/lwa_mcp/image_compositor.py:263-267 | After every command of every run the buffered total is within the pending limit. |
| Kitty.InterleavedImagesDoNotMix | src/lwa_mcp/image_compositor.py:247-275 | While the limit is not hit, the frames and issues of each image id are those of its own commands alone. |
| Kitty.BufferIsPieces | src/lwa_mcp/image_compositor.py:263-270 | While the limit is not hit, an image's buffer is the concatenation of its chunks since its last completion. |
| Kitty.CompletedFrameIsPieces | src/lwa_mcp/image_compositor.py:268-300 | A completing command in the PNG format emits exactly those bytes and its own, or the size issue. |
| Kitty.RawPixel | src/lwa_mcp/image_compositor.py:287-297 | Pixel (r, c) of a raw frame is its row-major source pixel, with alpha 255 for 24-bit input. |
| Kitty.RawDecodes | src/lwa_mcp/image_compositor.py:287-297 | The scanlines built from a raw frame decode to its rows. |
| Kitty.ScanlineLoop | src/lwa_mcp/image_compositor.py:287-297 | The nested loops build those scanlines. |
| KittySequence.SequenceRoundTrip | src/lwa_mcp/image_compositor.py:28-40 | A frame written as a Kitty sequence, with any placement options, is read back by `feed` with exactly its bytes, in every state that is not inside a sequence, buffers nothing for that image and has room; other images stay as they are and nothing is pending. |
| KittySequence.ParamReads | src/lwa_mcp/image_compositor.py:247-249 | A parameter of a written list reads back to its value, and no other is found. |
| ImageCompositor.Compositor.KittyCommand | src/lwa_mcp/image_compositor.py:247-262 | One Kitty command updates parts and metadata, and answers, as specified, on every branch. |
| ImageCompositor.Compositor.Absorb | src/lwa_mcp/image_compositor.py:263-275 | Buffering, the pending limit, continuation and completion of one command. |
| ImageCompositor.Compositor.FinishFrame | src/lwa_mcp/image_compositor.py:275-300 | Raw formats become a PNG when size and length fit; other formats pass on. |
| ImageCompositor.Compositor.DecodeSequence | src/lwa_mcp/image_compositor.py:231-239 | Dispatch of one complete sequence to the two decoders. |
| ImageCompositor.Compositor.Emit | src/lwa_mcp/image_compositor.py:240-244 | Frames count against the frame limit, issues do not. |
| ImageCompositor.Compositor.Feed | src/lwa_mcp/image_compositor.py:212-245 | The loop over find, slice and trim computes the frames, first issue and pending text of the specification. |
| ImageCompositor.DrainSplits | src/lwa_mcp/image_compositor.py:217-245 | Draining `a + b` is draining `a`, then what it left followed by `b`, up to start-free text that trimming may drop. |
| ImageCompositor.ChunkingDoesNotMatter | src/lwa_mcp/image_compositor.py:212-245 | However a stream is cut into reads, frames, issues and final state are those of one read, trimming included. |
| StreamImages.RawImageTells | src/lwa_mcp/image_compositor.py:247-300 | A stream text that completes a 24- or 32-bit image whose `s` reads as n and `v` as m: the size issue exactly outside 1..2048 or above 2000000 pixels, the length issue exactly for a payload not of n*m*channels bytes, else a frame of width n and height m whose PNG header reads n and m and whose decoded pixel (r, c) is the payload at channels*(r*n+c). |
| StreamImages.NoSizeTells | src/lwa_mcp/image_compositor.py:276-281 | Such a text without a width or height that reads as a number gives the missing-dimensions issue. |
| StreamImages.WholeFrameTells | src/lwa_mcp/image_compositor.py:270-300 | In any other format the frame is the joined data, without a size. |
| StreamImages.ChunkTells | src/lwa_mcp/image_compositor.py:263-269 | A text with `m=1` emits nothing and puts its data behind those of its image; its parameters are remembered. |
| StreamImages.OverflowTells | src/lwa_mcp/image_compositor.py:263-267 | Data beyond the pending limit empties every buffer and is reported. |
| StreamImages.TooLargeTells | src/lwa_mcp/image_compositor.py:270-272 | A whole image above the size limit is reported, its buffer dropped and its parameters kept. |
| StreamImages.MalformedTells | src/lwa_mcp/image_compositor.py:257-262 | Data that is not base64, or not zlib where `o=z` says so, is reported and buffers nothing. |
| StreamImages.PlacementTells | src/lwa_mcp/image_compositor.py:250-256 | A placement without data emits nothing and only its parameters are remembered. |
| StreamImages.SixelTells | src/lwa_mcp/image_compositor.py:235-239 | A Sixel text emits the picture of its body in its own size, or the issue, and leaves all Kitty buffers alone. |
| StreamImages.OtherDeviceTells | src/lwa_mcp/image_compositor.py:231-239 | Any other device control string emits nothing. |
| StreamImages.JunkTells | src/lwa_mcp/image_compositor.py:217-224 | Text in which no sequence starts emits nothing, and its last 64000 characters stay pending. |
| StreamImages.UnfinishedTells | src/lwa_mcp/image_compositor.py:225-230 | A sequence without its end emits nothing and stays pending from its first character on. |
| StreamImages.FrameSays | src/lwa_mcp/image_compositor.py:28-40 | A written frame reads back its fixed parameters, its id, at least 1, and only positive sizes. |
| ImageCompositor.OpaqueFrameVisible | src/lwa_mcp/image_compositor.py:275-299 | Every frame that a completed 24-bit transmission emits is judged visible. |
| ImageCompositor.AlphaFrameVisible | src/lwa_mcp/image_compositor.py:275-299 | A frame that a completed 32-bit transmission emits is judged visible exactly when one of the transmitted alpha bytes is not zero. |
| ImageCompositor.SixelFrameVisible | src/lwa_mcp/image_compositor.py:160-166 | A decoded Sixel image is always judged visible. |
| TerminalProtocol.TerminalStreamFilter.Feed | src/lwa_mcp/terminal_protocol.py:87-124 | The index loop outputs the text of everything complete and keeps the unfinished rest, or drops it on the final call. |
| TerminalProtocol.ControlEnd | src/lwa_mcp/terminal_protocol.py:100-121 | The branches on a control give the index behind it, or -1 while it is unfinished. |
| TerminalProtocol.StripSplits | src/lwa_mcp/terminal_protocol.py:87-124 | Reading `a`, then `b` behind what was left pending, gives the output and pending text of reading both at once. |
| TerminalProtocol.FilterChunking | src/lwa_mcp/terminal_protocol.py:87-124 | For any cut into reads the outputs join to the one-shot output and the same text is pending. |
| TerminalProtocol.StripKeepsText | src/lwa_mcp/terminal_protocol.py:92-121 | Of a stream of plain pieces and complete controls exactly the plain characters are output. |
| TerminalProtocol.EveryStreamIsPieces | src/lwa_mcp/terminal_protocol.py:92-121 | Every stream is such pieces and one unfinished control, which is what is pending. |
| TerminalProtocol.OutputHasNoEscape | src/lwa_mcp/terminal_protocol.py:92-96 | No escape character is ever output. |
| TerminalProtocol.TerminalTextBuffer.Feed | src/lwa_mcp/terminal_protocol.py:141-157 | The lines are the last `max_lines` of the screen written without trimming, and the cursor is the same. |
| TerminalProtocol.TerminalTextBuffer.WriteText | src/lwa_mcp/terminal_protocol.py:159-165 | Overwrites the last line from the cursor on, padding it where it is short. |
| TerminalProtocol.CursorStaysInside | src/lwa_mcp/terminal_protocol.py:141-165 | The cursor never leaves the last line. |
| TerminalProtocol.TrimmingCommutes | src/lwa_mcp/terminal_protocol.py:155-156 | Trimming early changes nothing once more text is written and trimmed again. |
| TerminalProtocol.BufferChunking | src/lwa_mcp/terminal_protocol.py:141-165 | For any cut into reads the buffer shows the last lines of the untrimmed screen of the whole text, with its cursor. |
| TerminalProtocol.PipelineChunking | src/lwa_mcp/terminal_protocol.py:87-165 | Filter and buffer together show the same screen for any cut of the raw stream. |
| TerminalProtocol.CarriageReturnRedraws | src/lwa_mcp/terminal_protocol.py:128-134 | A line redrawn behind a carriage return overlays the old line and adds none. |
| TerminalScreen.ScreenIsCells | src/lwa_mcp/terminal_protocol.py:141-165 | After any text there is one line more than line feeds, the column is that of the text with its returns, backspaces and tab stops of eight, and each cell shows the last character written to it, a tab as blanks. |
| TerminalScreen.BufferIsCells | src/lwa_mcp/terminal_protocol.py:141-165 | For any cut into reads the buffer shows the end of exactly that screen. |
| PromptEditor.PromptEditor.InsertText | src/lwa_mcp/prompt_editor.py:28-37 | Replaces the selection, or inserts at the cursor. |
| PromptEditor.PromptEditor.BackspaceKey | src/lwa_mcp/prompt_editor.py:42-49 | The new editor state, with or without a selection, keeping the cursor inside the text. |
| PromptEditor.PromptEditor.DeleteKey | src/lwa_mcp/prompt_editor.py:51-57 | The new editor state, with or without a selection. |
| PromptEditor.PromptEditor.MoveLeftKey | src/lwa_mcp/prompt_editor.py:119-125 | Moving left, with the anchor set, kept or dropped. |
| PromptEditor.PromptEditor.MoveRightKey | src/lwa_mcp/prompt_editor.py:127-133 | Moving right, with the anchor set, kept or dropped. |
| PromptEditor.PromptEditor.LineNumberAndColumn | src/lwa_mcp/prompt_editor.py:84-86 | Counts the breaks before the cursor and the characters behind the last of them. |
| PromptEditor.PromptEditor.LineStart | src/lwa_mcp/prompt_editor.py:88-94 | The loop of `find` steps reaches the start of the line, or the end of the text past the last line. |
| PromptEditor.PromptEditor.HomeKey | src/lwa_mcp/prompt_editor.py:74-77 | The new state after `home`. |
| PromptEditor.PromptEditor.EndKey | src/lwa_mcp/prompt_editor.py:79-82 | The new state after `end`. |
| PromptEditor.PromptEditor.UpKey | src/lwa_mcp/prompt_editor.py:100-107 | The new state after `up`, on the first line too. |
| PromptEditor.PromptEditor.DownKey | src/lwa_mcp/prompt_editor.py:109-117 | The new state after `down`, on the last line too. |
| PromptEditor.LineAndColumnIsExact | src/lwa_mcp/prompt_editor.py:84-86 | (line, column) and cursor determine each other over the list of lines. |
| PromptEditor.LineStartIsStart | src/lwa_mcp/prompt_editor.py:88-94 | `_line_start` is the sum of the lengths of the lines above. |
| PromptEditor.LineEndIsEnd | src/lwa_mcp/prompt_editor.py:96-98 | `_line_end` is that start and the length of the line. |
| PromptEditor.HomeGoesToColumnZero | src/lwa_mcp/prompt_editor.py:69-77 | `home` keeps the line and goes to column 0. |
| PromptEditor.EndGoesToLineLength | src/lwa_mcp/prompt_editor.py:69-82 | `end` keeps the line and goes behind its last character. |
| PromptEditor.ReachableInv | src/lwa_mcp/prompt_editor.py:28-139 | In every reachable editor the cursor is inside the text and the column is min(preferred column, line length) while one is remembered. |
| PromptEditor.VerticalMotionKeepsColumn | src/lwa_mcp/prompt_editor.py:100-117 | After any run of `up` and `down` the cursor stands in the line the run leads to, in column min(aimed column, line length). |
| PromptEditor.VerticalRunReturns | src/lwa_mcp/prompt_editor.py:100-117 | A vertical run back to its starting line restores the cursor exactly. |
| PromptEditor.BackspaceUndoesInsert | src/lwa_mcp/prompt_editor.py:28-49 | One backspace per inserted character gives text and cursor back. |
| PromptEditor.PromptEditor.SelectedText | src/lwa_mcp/prompt_editor.py:21-23 | The text between the two ends of the selection. |
| PromptEditor.Leftwards | src/lwa_mcp/prompt_editor.py:42-49 | Over a text split at the cursor: `left` moves the last character of the left part to the right part, backspace takes it away, and the anchor is set, kept or dropped. |
| PromptEditor.Rightwards | src/lwa_mcp/prompt_editor.py:51-57 | The same for `right` and delete with the first character of the right part. |
| PromptEditor.AtTheEnds | src/lwa_mcp/prompt_editor.py:42-67 | At the ends of the text nothing moves and nothing is taken away. |
| PromptEditor.Typed | src/lwa_mcp/prompt_editor.py:28-37 | Typing puts the text between what stands left and right of the cursor. |
| PromptEditor.SelectionReplaced | src/lwa_mcp/prompt_editor.py:28-57 | Typing, backspace and delete replace exactly the selected text, whichever end the cursor is at. |
| PromptEditor.GrownSelectionReplaced | src/lwa_mcp/prompt_editor.py:119-133 | A selection grown by any run of selecting motions is the text between the cursor's old and new place, and typing replaces exactly that. |
| PromptEditor.BackspaceSelectsIff | src/lwa_mcp/prompt_editor.py:42-49 | Without a selection, backspace leaves text selected if and only if an anchor stood at the cursor. |
| PromptEditor.BackspaceSelects | src/lwa_mcp/prompt_editor.py:42-49 | An input where that happens; the selection then ends behind the text. |
| PromptEditor.LineStartBeyond | src/lwa_mcp/prompt_editor.py:88-94 | A line the text does not have starts at its end. |
| Preflight.PreflightStore.Create | src/lwa_mcp/preflight.py:52-138 | Stores the plan, and its confirmation when one of the decisions needs it. |
| Preflight.PreflightStore.Approve | src/lwa_mcp/preflight.py:140-152 | Purges, uses up the confirmation and approves its plan. |
| Preflight.PreflightStore.Consume | src/lwa_mcp/preflight.py:154-167 | Purges, takes out an approved plan with its confirmations, puts back an unapproved one. |
| Preflight.PreflightStore.Purge | src/lwa_mcp/preflight.py:169-180 | Drops exactly the expired plans and the confirmations leading to them. |
| Preflight.StoreIsHistory | src/lwa_mcp/preflight.py:52-180 | In every run with fresh tokens the store is exactly what the log of makings, acceptances, uses and purges says. |
| Preflight.ConsumeExactly | src/lwa_mcp/preflight.py:154-167 | `consume` succeeds if and only if the plan was made, not used or swept since, is not expired, and had its own confirmation accepted if it needs one. |
| Preflight.ApproveExactly | src/lwa_mcp/preflight.py:140-152 | `approve` succeeds if and only if the confirmation belongs to a living, unexpired, not yet accepted plan; it never finds the plan missing. |
| Preflight.ConfirmationsAreUnapprovedPlans | src/lwa_mcp/preflight.py:135-152 | Confirmations map one to one onto the live unapproved plans. |
| Preflight.ConsumedAtMostOnce | src/lwa_mcp/preflight.py:154-167 | No plan token is executed twice in a run. |
| Preflight.ConsumedOnlyAfterApproval | src/lwa_mcp/preflight.py:159-161 | An executed plan was made before, had not expired, and if it needs confirmation its own was accepted in between. |
| Preflight.RefusedConsumeChangesNothing | src/lwa_mcp/preflight.py:154-161 | A refused `consume` only purges; with nothing expired it changes nothing. |
| Preflight.CreateTells | src/lwa_mcp/preflight.py:52-138 | What `create` answers and stores, by whether some decision or the synthesis demands confirmation: ready at once, or waiting for the drawn token. |
| Preflight.ConsumeByOps | src/lwa_mcp/preflight.py:154-167 | By the operations before it: `consume` succeeds if and only if the plan was created, stands unexpired and unused, and, if a decision of that request demands it, its own confirmation token was accepted since. |
| Preflight.ConsumeHandsOut | src/lwa_mcp/preflight.py:154-167 | The plan handed out has the frozen content of the request that created it, and was accepted if that request demands it. |
| Preflight.ApproveByOps | src/lwa_mcp/preflight.py:140-152 | By the operations before it: `approve` succeeds if and only if the token was drawn for a plan that demands it, stands unexpired and was not accepted before. |
| ProviderPolicy.ProviderRoutingPolicy.StickyProvider | src/lwa_mcp/provider_policy.py:123-134 | The live pin of the session, else the live global one, and what the lazy clean-up drops. |
| ProviderPolicy.ProviderRoutingPolicy.Stick | src/lwa_mcp/provider_policy.py:154-162 | Pins one session, or all without a pin of their own. |
| ProviderPolicy.ProviderRoutingPolicy.ClearSticky | src/lwa_mcp/provider_policy.py:164-170 | Clears one session, or the global pin and every session's. |
| ProviderPolicy.ProviderRoutingPolicy.Order | src/lwa_mcp/provider_policy.py:141-149 | The provider order by pin, mode and route table. |
| ProviderPolicy.StickyForIsIdempotent | src/lwa_mcp/provider_policy.py:123-134 | Looking a pin up cleans up once: asking again at the same time gives the same pin and policy. |
| ProviderPolicy.PinHoldsUntilReset | src/lwa_mcp/provider_policy.py:123-170 | A fresh pin decides exactly until its reset time; after that only the global pin counts. |
| ProviderPolicy.PinHeldIff | src/lwa_mcp/provider_policy.py:123-170 | Over every run of pinnings, clearings and lookups with a clock that does not go back, a session holds its pin all along if and only if no operation, judged by what was pinned and cleared before it, ends it. |
| ProviderPolicy.LookupFinds | src/lwa_mcp/provider_policy.py:123-134 | A lookup finds exactly the provider of the live pin of the session, else of the live global one. |
| ProviderPolicy.LookupLeaves | src/lwa_mcp/provider_policy.py:123-134 | A lookup without a live pin of its own session that meets an expired global pin forgets every pin; any other forgets at most its own expired one. |
| ProviderPolicy.OrderFollows | src/lwa_mcp/provider_policy.py:141-149 | The order is the live pin alone; without one it is the manual provider or the table of the mode. |
| Routing.Reject | src/lwa_mcp/routing.py:132-195 | The first gate that fails names the reason, and the pin lookup cleans the policy up only where it is reached. |
| Routing.ScoreAll | src/lwa_mcp/routing.py:197-250 | One pass gives the valid models with their scores and the rejections, although the policy may change during it. |
| Routing.DecideRoute | src/lwa_mcp/routing.py:246-284 | The chosen model, or all rejections. |
| Routing.EveryModelAccountedFor | src/lwa_mcp/routing.py:197-209 | Every catalog model is either valid with its score or recorded with its one reason. |
| Routing.DecisionIsOptimal | src/lwa_mcp/routing.py:246-284 | There is a route exactly when some model is eligible; it is the unique first by preference rank, score, provider and model, among the paid ones when it is below the quality floor and there are any. |
| Routing.DecisionIgnoresCatalogOrder | src/lwa_mcp/routing.py:253-276 | Every permutation of the catalog gives the same decision. |
| Routing.ChosenIsEligible | src/lwa_mcp/routing.py:132-195 | The chosen model passed every gate. |
| Routing.PinForcesProvider | src/lwa_mcp/routing.py:137-146 | Outside manual mode a live pin forces its provider, in manual mode the selected one is forced, and an excluded provider is never chosen. |
| Routing.ExcludedPinHasNoRoute | src/lwa_mcp/routing.py:143-146 | A live pin on an excluded provider leaves no route. |
| Routing.RejectionIsFirstFailure | src/lwa_mcp/routing.py:132-195 | In the fields of world, request and model: the reason is that of the first of all gates that fails, none when all pass. |
| Routing.RouteIffPasses | src/lwa_mcp/routing.py:132-252 | There is a route if and only if some catalog model passes every gate, each stated in those fields: pin, capabilities, effort, format, context, provider, credential, account, caps and both billing permissions. |
| Routing.RejectionsTell | src/lwa_mcp/routing.py:197-252 | Without a route every model is reported, in catalog order, with the first gate it fails. |
| Routing.ScoreAddsUp | src/lwa_mcp/routing.py:211-244 | The score, term by term. |
| Routing.RouteIsChosenWell | src/lwa_mcp/routing.py:246-284 | No passing model goes before the choice by preference rank, score, provider and model; below the quality floor with paid models among them, the choice is the best paid one. |
| Routing.DecisionLeaves | src/lwa_mcp/routing.py:137-146 | A decision cleans expired pins up exactly when it asked for one. |
| QuotaFallback.ExecuteWithQuotaFallback | src/lwa_mcp/service.py:684-753 | The loop terminates; calls, hops, final request, decision and policy are those of the specified run. |
| QuotaFallback.FallBack | src/lwa_mcp/service.py:719-752 | One quota exhaustion extends the exclusions, asks for a new route, records the hop and pins its provider. |
| QuotaFallback.AdvanceShrinks | src/lwa_mcp/service.py:719-752 | Each hop leaves fewer untried providers in the catalog. |
| QuotaFallback.FallbackRunIsLawful | src/lwa_mcp/service.py:684-753 | In every run the hops form a chain of distinct providers ending at the returned one, none was excluded, each is called at most twice, only preferences and exclusions change, and each later hop waited for the reset time of the one before. |
| QuotaFallback.SecondHopNeedsExpiredPin | src/lwa_mcp/service.py:719-752 | A quota failure behind a hop moves on if and only if that hop's pin has run out and some model is eligible for the next request. |
| QuotaFallback.HeadsGo | src/lwa_mcp/service.py:684-753 | Every state at the head of the loop of every run satisfies the laws of a run going on. |
| QuotaFallback.NextHopIff | src/lwa_mcp/service.py:719-752 | For every such head behind a hop, outside manual mode: exhausted quota leads to another hop if and only if the last hop's pin has run out and some model is eligible for the next request. |
| QuotaFallback.RouteIffEligible | src/lwa_mcp/routing.py:246-252 | The router finds a route if and only if some catalog model passes every gate. |
| QuotaFallback.ClassifyIs | src/lwa_mcp/provider_policy.py:51-83 | A failure counts as exhausted quota exactly without a security denial and with the flag, a quota sign or status 402, and as throttling exactly on 429 with none of these. |
| QuotaFallback.RepeatTells | src/lwa_mcp/service.py:713-720 | A repeat changes nothing but that it happened. |
| QuotaFallback.MoveTells | src/lwa_mcp/service.py:721-752 | A hop goes to the best passing model for the request that excludes what failed, and is recorded with both providers and the reset time. |
| QuotaFallback.MovePins | src/lwa_mcp/service.py:744-748 | A hop pins its session to where it went until the reset time of the failure. |
| QuotaFallback.MoveLeaves | src/lwa_mcp/service.py:721-752 | A hop leaves the pins as its decision left them, cleaned up exactly when that decision asked for one, but for the pin of its session. |
| QuotaFallback.EndLeaves | src/lwa_mcp/service.py:721-753 | The end of a run leaves the pins alone, unless quota was out and a decision was tried. |
| QuotaFallback.EndTells | src/lwa_mcp/service.py:700-753 | Any other attempt ends the run, with its text or with the error and without a hop. |
| QuotaFallback.RunTells | src/lwa_mcp/service.py:684-753 | From every head on: each attempt but the last was answered by a repeat of a throttled first try or by a move because quota was out, and the last one decides the result. |
| QuotaFallback.FallbackTells | src/lwa_mcp/service.py:684-753 | The whole run of a request, over what the providers answered: its hops are exactly the moves, none after a security denial, and an answer carries the text of the last attempt. |
| ProbeCache.PipelineManager.Begin | src/lwa_mcp/pipeline_manager.py:153-168 | Up to the await: served from the cache exactly when fresh, else joined to the provider's probe, else a new one. |
| ProbeCache.PipelineManager.FinishProbe | src/lwa_mcp/pipeline_manager.py:207-213 | The end of a probe stores its row under its fingerprint and the time it ended. |
| ProbeCache.PipelineManager.Resume | src/lwa_mcp/pipeline_manager.py:169-174 | Behind the await: the caller gets the probe's row and only that probe's registration is removed. |
| ProbeCache.PipelineManager.InvalidateProbeCache | src/lwa_mcp/pipeline_manager.py:215-221 | Drops one provider or all and returns how many rows went. |
| ProbeCache.SingleFlight | src/lwa_mcp/pipeline_manager.py:165-173 | Under every interleaving at most one probe per provider is running. |
| ProbeCache.EveryoneGetsAProbe | src/lwa_mcp/pipeline_manager.py:165-174 | Who was not served from the cache gets the row of a finished probe of that provider. |
| ProbeCache.NoFlightLeftBehind | src/lwa_mcp/pipeline_manager.py:169-173 | Every registered probe has a waiting caller; when nobody waits, none is registered and none is running. |
| ProbeCache.TraceIsLogged | src/lwa_mcp/pipeline_manager.py:207-212 | Every finished probe stored its row exactly once, and no other did. |
| ProbeCache.CacheIsHistory | src/lwa_mcp/pipeline_manager.py:207-221 | The cache row of a provider is the outcome of the probe that stored last since the last invalidation. |
| ProbeCache.HitExactlyWhenFresh | src/lwa_mcp/pipeline_manager.py:153-163 | A call is a cache hit if and only if that probe ran under the call's fingerprint and ended less than its success or failure time limit ago; the caller gets its row. |
| ProbeCache.ProbesKeepTheirDistance | src/lwa_mcp/pipeline_manager.py:153-168 | A probe starts only when none of its provider is running and the last stored row under the same fingerprint is at least its time limit old. |
| ProbeCache.OwnFingerprintIff | src/lwa_mcp/pipeline_manager.py:153-174 | In every interleaving, at the call and after any further steps, a caller's answer comes from a probe of its own fingerprint if and only if it called with a fresh row, no probe in flight, or one of that fingerprint in flight. |
| ProbeCache.JoiningIgnoresFingerprint | src/lwa_mcp/pipeline_manager.py:165-171 | An input for the other half of that condition: the caller gets the row of a probe of another fingerprint. |
| ProbeCache.CacheByTrace | src/lwa_mcp/pipeline_manager.py:207-221 | By the steps alone: a provider's row is what its last ended probe saved, unless an invalidation of it or of all came behind. |
| ProbeCache.HitByTrace | src/lwa_mcp/pipeline_manager.py:153-163 | By the steps alone: a call is a hit, with that row and its age, if and only if that probe had the call's fingerprint and ended less than 60 seconds ago, 15 for a failure. |
| TaskLedger.TaskLedger.CreateTask | src/lwa_mcp/task_ledger.py:63-72 | Both statements in a row, or the conflict and nothing. |
| TaskLedger.TaskLedger.ClaimTask | src/lwa_mcp/task_ledger.py:74-88 | Leases a pending task and logs it; every refusal leaves the tables alone. |
| TaskLedger.TaskLedger.TransitionTask | src/lwa_mcp/task_ledger.py:90-101 | Moves along the transition table only, in the source's order of errors. |
| TaskLedger.TaskLedger.SetTaskControls | src/lwa_mcp/task_ledger.py:112-118 | Sets the controls of an existing task and logs it. |
| TaskLedger.TaskLedger.StopTask | src/lwa_mcp/task_ledger.py:125-138 | Blocks a task and drops its lease; a blocked task is left alone without an event. |
| TaskLedger.EventReadsBack | src/lwa_mcp/task_ledger.py:141-145 | What an event says is determined by its stored text. |
| TaskLedger.RowIsReplay | src/lwa_mcp/task_ledger.py:63-138 | In every serialization each task's state and lease holder are the replay of its event texts, each legal where it stands. |
| TaskLedger.LogIsAPath | src/lwa_mcp/task_ledger.py:13-20 | Every event of every log keeps the state or moves it along `_TRANSITIONS`. |
| TaskLedger.CompleteIsNeverLeft | src/lwa_mcp/task_ledger.py:13-20 | A complete task stays complete with its lease holder, whatever operations follow. |
| TaskLedger.ClaimsAreSeparated | src/lwa_mcp/task_ledger.py:74-101 | Between two successful claims of a task lies a transition to pending. |
| TaskLedger.AnnouncedOnce | src/lwa_mcp/task_ledger.py:63-72 | A task's log has its `created` event at most once, and exactly once when its creation is through. |
| TaskLedger.StartsWithCreationIff | src/lwa_mcp/task_ledger.py:63-72 | In every serialization, a task whose creation is through has a log that starts with `created` if and only if no other event of it was logged before that; until then its log is empty under the same condition. |
| TaskLedger.ClaimBeforeCreation | src/lwa_mcp/task_ledger.py:63-72 | An input for the other half of that condition: the log starts with the claim. |
| TaskLedger.RefusedIff | src/lwa_mcp/task_ledger.py:63-138 | When a step has no conflict, by the names of the states it moves between; a step not permitted changes nothing. |
| TaskLedger.ConflictTells | src/lwa_mcp/task_ledger.py:63-138 | Which conflict a refused step raises, in the source's order. |
| TaskLedger.RowByTrace | src/lwa_mcp/task_ledger.py:63-138 | In every serialization each column of a row is what the permitted steps on its task said last, the lease columns, untouched by transitions, included. |
| TaskLedger.LogByTrace | src/lwa_mcp/task_ledger.py:63-145 | The log has exactly one event, with its text, for every permitted step but the first half of a creation. |
| AgentsSync.RenderFramed | src/lwa_mcp/agents_sync.py:26-34 | A file whose first start marker is followed by an end marker is rendered to the same text before and after, around the block. |
| AgentsSync.RenderedIsTerminated | src/lwa_mcp/agents_sync.py:26-34 | What was rendered has the same text before and after its block, and the block is found again. |
| AgentsSync.LastWriteWins | src/lwa_mcp/agents_sync.py:26-34 | Rendering one text and then another equals rendering the second alone. |
| AgentsSync.UnmanagedTextKept | src/lwa_mcp/agents_sync.py:31-33 | Replacing a block leaves everything before and after it unchanged. |
| AgentsSync.IdempotentIff | src/lwa_mcp/agents_sync.py:26-34 | Whenever the first rendering succeeds, the second gives the same text if and only if the first start marker, if any, is followed by an end marker. |
| AgentsSync.SecondRenderingSwallows | src/lwa_mcp/agents_sync.py:28-34 | Otherwise the second rendering replaces everything from that start marker on by the block. |
| AgentsSync.BodyHolds | src/lwa_mcp/agents_sync.py:20-23 | Between the markers stand the shared text and, on the next line, the delta, both without surrounding whitespace; a blank one is left out. |
| AgentsSync.BlockAppended | src/lwa_mcp/agents_sync.py:34-34 | A file without a start marker keeps its text up to trailing whitespace and gets the block behind an empty line. |
| AgentsSync.RefusedIff | src/lwa_mcp/agents_sync.py:28-29 | A rendering is refused if and only if the file has a start marker and no end marker. |
| AgentsManifest.ValidateManifest | src/lwa_mcp/agents_sync.py:37-56 | Accepts exactly manifests with shared text, without markers and with distinct paths. |
| AgentsManifest.Synchronize | src/lwa_mcp/agents_sync.py:59-76 | Each report is about the file as it was before the call, only changed files are written, and a file that cannot be rendered ends the run behind the earlier writes. |
| AgentsManifest.PlanIsWhatApplyWrites | src/lwa_mcp/agents_sync.py:59-76 | A dry run changes nothing and reports exactly the changes, contents and error of the applying run. |
| AgentsManifest.SecondSyncChangesNothing | src/lwa_mcp/agents_sync.py:59-76 | For plain texts and terminated files, applying a manifest succeeds, and applying it again changes no file. |
| AgentsManifest.AcceptedIff | src/lwa_mcp/agents_sync.py:37-56 | A manifest is accepted if and only if its shared text is not blank, no text holds a marker and no path comes twice. |
| AgentsManifest.AcceptedIsPlain | src/lwa_mcp/agents_sync.py:37-56 | The texts of an accepted manifest without backslashes are safe between the markers, which is what the law above needs of them. |

## Left out

- Provider adapters, HTTP, subprocesses, the dashboard, the MCP server, the CLI and JavaScript: input and output.
- SQLite, JSON files, HMAC, SHA-256, zlib, base64 and CRC themselves; transactions are atomic and drawn tokens fresh.
- Evidence gates and validators (audit, image gate, promotion, quota, safety): one reading of a branch settles each.
- Glob: ranges that `fnmatch` empties (such as `[b-a]`) follow the plain reading of a class; case folding and path separators do not arise, since `fnmatchcase` has neither.
- WriteOwnership.DelegationSound: needs owner scopes that are rigid and class-free delegated scopes; `Glob.CoverSoundIff` and `Glob.ClassChildEscapes` say why.
- PetRenderer.ResidualCheckIsExact: for 8-bit RGBA without interlace and filter types 0 to 4; the code never looks at the filter byte, and others have no decoded image.
- PNG files whose size does not fit four bytes: the error of `struct.pack` is the absent file.
- LedgerSlicer.SliceLedger: the two regular expressions, `strip`, `title` and `splitlines` are one abstract reader of lines; the fingerprint and its `changed` flag are left out, being one comparison.
- Sixel.Turn: digits are ASCII, and the interpreter's limit on the length of a decimal numeral is not modelled.
- Kitty: `int()` of a size parameter is a parameter of the model.
- ImageCompositor: no bound on the pending text of an unfinished sequence, since the code has none.
- Redaction of terminal text, which works on each read before the filter and does depend on the cut.
- Preflight.PreflightStore.Create: what the summary holds and no operation reads again is one opaque value.
- ProviderPolicy: an empty session id is no session.
- Routing.DecideRoute: cost estimates, reasons of a score and recording the route are left out, since routing never reads them; the consent flag is left out here and enters `Preflight` as a parameter.
- Routing: scores are exact reals, and token estimates are parameters.
- Routing.DecisionIsOptimal: the clock stands still during one decision.
- QuotaFallback.ExecuteWithQuotaFallback: the catalog stays the same during a run; the sleep before a retry has no effect in the model.
- ProbeCache: cancelled callers, whose `finally` drops a probe that is still running, and so single flight with them.
- ProbeCache.PipelineManager.FinishProbe: a row is its reachability and its detail; the other columns are constants of the two outcomes.
- TaskLedger: `lease_until` and the controls are stored but not part of the replay, because events do not hold them; timestamps of events are left out.
- TaskLedger.RowIsReplay: says who held the last lease, not that it still runs: `transition` never touches the lease columns.
- AgentsSync.LastWriteWins: for texts without markers and backslashes; a backslash is read by `re.sub` as a template escape, which is the parameter `expand`.
- AgentsManifest.ValidateManifest: type errors of the manifest; paths are compared as `Path` has normalized them.
- AgentsManifest.Synchronize: backups, and two paths that name one file.
