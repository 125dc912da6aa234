# strata-qemu-testing, verified

A Dafny model of the parts of strata-qemu-testing that carry real logic, with
proofs about them. The host, the guests, the sockets and the clock are replaced
by arbitrary streams, replies and failures, so every statement is about all of
their behaviours.

| file | what it models |
|---|---|
| `bytes.dfy`, `sequences.dfy`, `text.dfy`, `wrappers.dfy` | octets, splitting, sorting, strings |
| `socket.dfy` | the receive helpers against a peer that fragments its stream at will |
| `framebuffer.dfy` | the raw framebuffer decoder of the VNC capture |
| `painting.dfy`, `coverage.dfy`, `server.dfy` | what the decoder's flat buffer means, when it is complete, and the server's side |
| `crc.dfy`, `png.dfy` | CRC-32 as polynomial division, the PNG writers and an independent reader |
| `capture.dfy` | the capture end to end, from ServerInit to the file |
| `qga.dfy` | writing a file into a guest over qemu-ga |
| `recipe.dfy`, `digest.dfy` | covered recipe files and the content address of a golden |
| `inputs.dfy` | what the build driver reads from a recipe directory |
| `lifecycle.dfy`, `cache.dfy` | QEMU processes, and the golden cache under builds, tests and prunes |
| `waiting.dfy` | waiting for SSH |
| `update.dfy` | the `--update-from` driver |
| `versions.dfy`, `archive.dfy` | release versions, version lists, archive names |
| `session.dfy` | choosing the Wayland session |
| `ports.dfy` | VNC display allocation |

`dafny verify dfyconfig.toml` checks the whole project.

Main results:

- The capture returns the server's picture. A rectangle is painted as it is
  meant exactly when what is visible of it ends within the right edge. Such
  rectangles, carrying the server's pixels, paint its framebuffer exactly when
  it is black wherever they do not cover it; pairwise disjoint ones for which
  the byte counter reached the screen size always do, and the file decodes to
  the colours of the screen in either byte order and for any announced shifts. With
  overlapping rectangles the counter proves nothing; when the visible areas add up
  to the screen, full coverage is equivalent to disjointness.
- The checksum of the PNG chunks is CRC-32: the shift register computes the
  remainder of a polynomial division (`Crc.CrcIsRemainder`).
- Two recipe directories have the same hash input exactly when they agree on
  every covered file. What the build driver then reads from them is the same,
  except that a directory with a forbidden name under `cidata/` makes a build
  fail without entering the hash (`Inputs.SameCoveredSameInputsIff`).
- In every run of edits, builds, forced builds, failures at any step, test runs
  and prunes, every golden was made by one particular build that set it up and
  saw its QEMU exit. As long as the hash separates the inputs that are compared,
  a test run boots a golden built from the recipe as it is now. Rebuilding every
  time never holds a golden that the incremental skip lacks, and the two hold the
  same ones exactly when no build can fail between unlinking a golden and moving
  the new one into its place (`GoldenCache.AgreementIff`). Every QEMU launched
  has exited or been sent a kill when its command ends. A golden's QEMU has
  always exited, but not always by a clean power-off
  (`GoldenCache.GoldenOfKilledGuest`).
- A qemu-ga write that reports success has stored the data if the guest is
  honest, whatever times out; guests that err to one side are told apart exactly.
- The SSH wait is characterised for every behaviour of the other side, and an
  update run that returns has had a good answer to every command it rests on, in
  order, and has recorded exactly the versions the guest printed.

Where the code and its text disagree the model follows the code:

- `SSH_AUTH_REJECT_MAX` is described as a number of consecutive rejects, but an
  unclassified failure between two rejects neither counts nor resets. The
  rejects are consecutive exactly when there is no such failure
  (`Waiting.ConsecutiveIff`); the comment that disk growth cancels
  the streak has no counterpart in `wait_ssh`.
- The decoder is documented as reading one update that covers the desktop; it
  reads as many as its byte counter asks for and counts overlaps twice
  (`Coverage.OverlapLeavesHole`).
- A display number is allocated by probing a port that QEMU will not listen on
  (`Ports.Binder.AllocateVncPort`).

## Model

| member | source | states |
|---|---|---|
| Sockets.Socket.Recv | strataqemu/qemu.py:190-192 | a read returns some non-empty prefix of what the peer still sends, and nothing only at end of stream |
| Sockets.Socket.RecvExact | strataqemu/qemu.py:610-617 | for every fragmentation it consumes exactly the next n octets; without timeouts it fails exactly when fewer are left |
| Sockets.FirstLineOf | strataqemu/qemu.py:198-198 | a newline-free line is the first line of itself, alone or with a newline and anything after it |
| Sockets.FirstLineOfPrefix | strataqemu/qemu.py:194-198 | once a newline has arrived, later octets do not change the first line |
| Sockets.Socket.RecvLine | strataqemu/qemu.py:187-199 | for every fragmentation it extracts the octets before the first newline of the stream; without timeouts it fails exactly on an empty stream; nothing is left over when nothing follows the line |
| Framebuffer.SliceAssign | strataqemu/qemu.py:642-644 | a slice write keeps the length exactly when it is empty or fits, and then changes exactly the slice |
| Framebuffer.PaintRect | strataqemu/qemu.py:638-645 | the row loop paints all visible rows and counts the bytes it writes |
| Framebuffer.ReadRect | strataqemu/qemu.py:633-637 | a rectangle is the header and pixels at the front of the stream; another encoding or a short stream is told apart |
| Framebuffer.ReadMessage | strataqemu/qemu.py:632-645 | the rectangle loop of one message, painting and counting as it reads |
| Framebuffer.ReadRawFramebuffer | strataqemu/qemu.py:620-646 | the result is a function of the stream alone, whatever the fragmentation, unless a read times out; it terminates on the remaining stream even with empty rectangles |
| Painting.IndexOnto | strataqemu/qemu.py:642-642 | every byte of the buffer is a component of one pixel of the screen |
| Painting.SegmentHolds | strataqemu/qemu.py:642-644 | an in-bounds row segment holds exactly the pixels of its columns in its row |
| Painting.PaintRowsMeans | strataqemu/qemu.py:638-645 | after n rows each pixel of the screen shows the rectangle if it lies in those rows, and is unchanged otherwise; the rectangle may overhang the bottom |
| Painting.PaintLength | strataqemu/qemu.py:625-646 | rectangles within the right edge keep the length of the buffer |
| Painting.PaintMeans | strataqemu/qemu.py:625-646 | for rectangles within the right edge, overlapping and overhanging the bottom included, each pixel shows the last one that covers it, or zero |
| Painting.KeepsLengthIff | strataqemu/qemu.py:638-645 | painting any rectangle keeps the buffer's length exactly when its last visible row, if any, ends inside the buffer |
| Painting.PaintsAsMeantIff | strataqemu/qemu.py:638-645 | a rectangle shows where it covers and changes nothing else, on every buffer of the size of the screen, if and only if it has no pixel on a visible row or does not pass the right edge |
| Coverage.BlockSize | strataqemu/qemu.py:637-637 | a rectangle covers width times height pixels |
| Coverage.CoveredCount | strataqemu/qemu.py:645-645 | any rectangles cover as many pixels above the bottom edge as their visible areas add up to exactly when no two overlap there |
| Coverage.ExactAreaCoversIff | strataqemu/qemu.py:627-645 | when visible areas add up to the screen, every pixel is covered exactly when no two rectangles overlap |
| Coverage.ApartAreaCovers | strataqemu/qemu.py:627-645 | disjoint visible areas never exceed the screen, and reach it exactly when they cover it |
| Coverage.GotIsArea | strataqemu/qemu.py:638-645 | the counter is four times the sum of the visible areas, whatever the rectangles are |
| Coverage.PaintsServerIff | strataqemu/qemu.py:625-646 | rectangles that carry the pixels of the server, overlapping or not and whatever they count, paint its framebuffer if and only if it is black wherever they do not cover it |
| Coverage.DisjointCaptureIsServer | strataqemu/qemu.py:620-646 | disjoint rectangles for which the counter reached the screen size paint exactly the framebuffer of the server |
| Coverage.OverlapLeavesHole | strataqemu/qemu.py:627-645 | with overlapping rectangles the counter can be reached while a pixel was never written |
| Server.DecodeRects | strataqemu/qemu.py:631-645 | the rectangle loop recovers exactly the rectangles a server encoded |
| Server.DecodeUpdates | strataqemu/qemu.py:627-645 | the decoder recovers every rectangle of the server's updates in order, stops at the first message end where the counter suffices, and leaves the rest of the stream |
| Server.OtherEncodingRefused | strataqemu/qemu.py:635-636 | a rectangle in any encoding but raw, whatever its octets are, ends the capture without a picture |
| Server.DecodedReachesNeed | strataqemu/qemu.py:627-645 | on every stream, a completed decode has counted the whole screen |
| Server.CaptureIsServer | strataqemu/qemu.py:620-646 | on every stream that decodes to rectangles carrying the framebuffer of the server, the capture is that framebuffer exactly when it is black where they do not cover it, and always when they are disjoint |
| Crc.CrcIsRemainder | strataqemu/qemu.py:526-528 | the checksum is CRC-32: the ones complement of the remainder, after division by the generator with exponents 32, 26, 23, 22, 16, 12, 11, 10, 8, 7, 5, 4, 2, 1 and 0, of the message times x^32 with all ones added in front |
| Crc.PolynomialDetermines | strataqemu/qemu.py:526-528 | a register value is determined by its polynomial, so that remainder fixes every bit of the checksum |
| Crc.CrcIncremental | strataqemu/qemu.py:526-528 | the CRC carried from the tag into the data is the CRC of their concatenation |
| Png.ChunkWritersAgree | strataqemu/sample_tree.py:20-22 | the two independent chunk writers produce the same octets for every tag and payload |
| Png.ReadChunkInverts | strataqemu/qemu.py:526-529 | a chunk reader that checks length and CRC gets back tag, payload and the rest of the file |
| Png.UnfilterInverts | strataqemu/qemu.py:531-533 | removing filter bytes row by row gives back the pixels from any row on |
| Png.PngRoundTrip | strataqemu/qemu.py:518-540 | an independent reader of any written file recovers width, height and every RGB octet |
| Png.FileLayout | strataqemu/qemu.py:530-540 | the file is the PNG signature and the chunks named IHDR, IDAT and IEND, for eight-bit RGB with the standard methods and no interlace |
| Capturing.RgbAt | strataqemu/qemu.py:661-665 | octet 3i + c of the result is component c of pixel word i |
| Capturing.PixelsToRgb | strataqemu/qemu.py:649-666 | it converts exactly the buffers that are long enough, each word in the announced byte order to its three shifted and masked components |
| Capturing.WordsRoundTrip | strataqemu/qemu.py:660-662 | words written in either byte order are read back unchanged in that order |
| Capturing.GrabPng | strataqemu/qemu.py:578-602 | from ServerInit on, the file and whether there is one depend on the stream alone unless a read times out |
| Capturing.WholeScreenTiles | strataqemu/qemu.py:589-591 | a single whole-screen rectangle is a session of the kind the end-to-end result is about, for every framebuffer |
| Capturing.AnnouncedIsRead | strataqemu/qemu.py:579-587 | every field the client uses is read from the place where a server that writes ServerInit field by field put it |
| Capturing.GrabShowsServer | strataqemu/qemu.py:578-599 | a server that announces itself and tiles its screen gets a file exactly when its pixel format is usable and the compressed picture fits a chunk, and the file decodes to its width, height and, per pixel, the masked shifts of the pixel word, whatever byte order it announced |
| Capturing.ColourReadBack | strataqemu/qemu.py:663-665 | for any three announced shifts whose octets do not overlap, the components put into a pixel word are read back |
| Capturing.GrabShowsColours | strataqemu/qemu.py:578-599 | then every pixel of the decoded file has the colour of that pixel of the screen of the server |
| Qga.Agent.Answer | strataqemu/qemu.py:331-352 | in lock step each reply line is received whole and nothing is left over |
| Qga.Agent.WriteLoop | strataqemu/qemu.py:337-362 | file, request count and end of the write loop for every script of guest replies; when the loop finishes, also on a socket with timeouts |
| Qga.Agent.FileWrite | strataqemu/qemu.py:321-378 | file, requests and result for every guest; with timeouts, that of the close reply included, True still means that the guest file is what the finished run stored: the data for an honest guest, and for a guest that errs to one side exactly when it was in step; a close is attempted exactly once when a handle was read and never otherwise |
| Qga.WritesBounded | strataqemu/qemu.py:338-362 | arbitrary replies still move the offset forward, so requests are bounded by the octets left |
| Qga.SuccessIsCompleteIff | strataqemu/qemu.py:338-362 | a guest that never stores more than it acknowledges stores too little in a finished write, one that never stores less too much, and both the data itself exactly when every acknowledgement tells what was stored |
| Qga.ErrorsCancel | strataqemu/qemu.py:338-362 | a guest that errs to both sides can end up with the data out of step |
| Qga.HonestSuccessIsComplete | strataqemu/qemu.py:338-362 | a finished write to a guest that reports what it stored, or stores all and reports nothing, has stored the data |
| Qga.ZeroCountLosesData | strataqemu/qemu.py:358-362 | a guest that stores nothing and reports zero is taken for success |
| Ordering.SortAscends | strataqemu/guest.py:90-90 | sorting a listing without repetitions puts it in ascending order |
| Ordering.AscendingUnique | strataqemu/guest.py:90-90 | ascending sequences with the same elements are equal |
| Recipes.PathOrder | strataqemu/guest.py:90-90 | component-wise comparison of paths is a strict total order |
| Recipes.NamesInOrder | strataqemu/guest.py:90-90 | names are ordered by the value of their first different octet, and come before their extensions |
| Recipes.PathsInOrder | strataqemu/guest.py:90-90 | paths are ordered by their first different component, and a directory comes before what is in it |
| Recipes.CoveredRecipeFiles | strataqemu/guest.py:72-110 | the four loops collect the covered files in their order |
| Recipes.CoveredExactly | strataqemu/guest.py:72-110 | the covered files are, without repetition, exactly the present files that qualify under some rule |
| Recipes.CoveredDetermined | strataqemu/guest.py:72-110 | the covered files and their order do not depend on directory listing order or on other files |
| Digests.ValueOfDecimal | strataqemu/guest.py:131-131 | the decimal length reads back as the length |
| Digests.ParseInverts | strataqemu/guest.py:126-134 | a parser recovers the exact list of paths and contents from the hash input |
| Digests.PosixInjective | strataqemu/guest.py:127-127 | different relative paths have different POSIX forms |
| Digests.PreimageIffSameCovered | strataqemu/guest.py:122-135 | two recipe directories give the same hash input exactly when they agree on every covered file |
| Digests.AddressInjective | strataqemu/guest.py:352-358 | equal content addresses mean equal hash input and source pin, unless one of the two compared pairs collides |
| Digests.AddressIffSameRecipe | strataqemu/guest.py:352-358 | equal content addresses mean equal covered files and source pin, and conversely |
| Digests.RecipeDigest | strataqemu/guest.py:122-135 | the updates of the hash object add up to the framed covered files |
| Digests.GoldenDigestOf | strataqemu/guest.py:352-358 | the golden digest hashes the recipe digest, a colon and the source pin |
| Digests.GoldenNameInjective | strataqemu/image_build.py:162-176 | a golden's file name determines guest and digest, and is another guest's symlink name only if that id spells it |
| Inputs.RecipeFilesToUpload | strataqemu/image_build.py:150-159 | the upload loop yields exactly the present files among four names, setup.sh among them, or an error without it |
| Inputs.ReadCidata | strataqemu/cloudinit.py:329-369 | the two loops and four reads of the cidata payload: the first missing file, else the first forbidden name, else the contents |
| Inputs.LoadsIff | strataqemu/guest.py:219-263 | when a recipe loads: its scripts, the files its kind needs and valid tables |
| Inputs.BuildsIff | strataqemu/image_build.py:975-1026 | when a build gets its inputs: an ISO guest needs its payload, nothing under a forbidden name, and for omarchy-3 the wizard script |
| Inputs.CidataHolds | strataqemu/cloudinit.py:346-363 | which file each part of the cidata payload comes from |
| Inputs.InputsHold | strataqemu/image_build.py:975-1044 | which file each input of a build comes from, and that no present upload is left out |
| Inputs.SameCoveredSameInputsIff | strataqemu/image_build.py:975-1062 | recipe directories with equal covered files give a build equal inputs or the same error exactly when they agree on the first forbidden cidata name, if the build looks for one |
| Inputs.EmptyDirectoryMatters | strataqemu/cloudinit.py:340-344 | adding an empty directory of a forbidden name keeps the hash input and changes the outcome of the build |
| Inputs.SameAddressSameInputs | strataqemu/guest.py:352-358 | equal content addresses mean equal build inputs, unless a compared pair collides or a directory bears a forbidden name |
| Lifecycle.Host.Shutdown | strataqemu/qemu.py:679-692 | guest agent, SSH and power button are tried in that order, up to the first that does not say no, which decides; a kill is sent only when all three said no |
| Lifecycle.Host.ShutdownMachine | strataqemu/image_build.py:927-936 | whatever raises, the process has exited or been sent a kill, no other process is touched, and a running process is killed exactly when no transport worked, one raised, or it did not exit in time |
| Lifecycle.SpawnResultIff | strataqemu/ports.py:117-132 | a machine comes from the first attempt that lives, when only busy ports came before it |
| Lifecycle.Host.Spawn | strataqemu/image_build.py:780-831 | at most five launches; every one retried had already exited; only the last may be left running |
| Lifecycle.RunOverlay | strataqemu/run_test.py:501-622 | at the end of a test run, failed at any step or not, no process launched by it is left running |
| GoldenCache.Cache.StartMachine | strataqemu/image_build.py:975-1024 | the steps up to the launch, any of which can fail |
| GoldenCache.Cache.SetUpGuest | strataqemu/image_build.py:1026-1062 | the disk counts as set up once setup.sh has succeeded in it and not before |
| GoldenCache.Cache.PowerOff | strataqemu/image_build.py:1071-1079 | going on to replace the golden means that the process has exited, and tells whether it was killed |
| GoldenCache.Cache.InstallGolden | strataqemu/image_build.py:1082-1130 | the golden is kept, removed or replaced depending on which step fails |
| GoldenCache.Cache.BuildLive | strataqemu/image_build.py:939-1136 | the cache after a build that fails at any step, and no process left running |
| GoldenCache.Cache.ImageBuild | strataqemu/image_build.py:1190-1214 | the incremental skip, the forced build and the exit status: zero exactly when the golden was there and not forced, or the build succeeded; then the golden at the current address is there, and new if anything was built |
| GoldenCache.BuildSucceedsIff | strataqemu/image_build.py:975-1136 | a build succeeds exactly when no step raises, a machine came up and its process was seen to exit |
| GoldenCache.Cache.RunTest | strataqemu/run_test.py:466-622 | a test run uses the golden at the current address, changes no golden and leaves no process it launched running; its status is zero exactly when there was a golden, a machine came up and every step passed |
| GoldenCache.Cache.PruneCache | strataqemu/overlay.py:112-126 | pruning removes run directories, goldens on request, and neither keys nor downloads |
| GoldenCache.RunIsSound | strataqemu/image_build.py:1183-1214 | in every run each golden sits at the address of the recipe it was built from, its setup step succeeded and its process had exited |
| GoldenCache.Provenance | strataqemu/image_build.py:1183-1214 | every golden of every run was there at the start or was made by one particular build of the history, which ran at that address, was set up, and whose process was seen to exit |
| GoldenCache.TestsUseCurrentRecipe | strataqemu/run_test.py:73-78 | in every reachable state a test run finds only a golden built from the current recipe |
| GoldenCache.TestedGoldenWasBuilt | strataqemu/run_test.py:73-78 | starting without goldens, what a test run boots was made by a build of the history from the recipe as it is now |
| GoldenCache.TestsUseCurrentFiles | strataqemu/run_test.py:73-78 | that golden was built from the same covered files, contents and source pin as the current recipe directory, and from the same build inputs, forbidden directory names aside |
| GoldenCache.ForcingKeepsRecipes | strataqemu/image_build.py:1190-1193 | rebuilding every time holds no golden that the incremental cache lacks |
| GoldenCache.IncrementalAgreesWithRebuilding | strataqemu/image_build.py:1190-1193 | every golden of the always rebuilding cache is in the incremental cache, built from the same recipe, and conversely when no build loses a golden |
| GoldenCache.AgreementIff | strataqemu/image_build.py:1082-1084 | the two caches hold the same goldens in every run from every sound cache if and only if no build can remove a golden and then fail to move the new one |
| GoldenCache.TestsAndPrunesAddNothing | strataqemu/overlay.py:112-126 | test runs and prunes add and change no golden and leave keys, downloads and recipes alone |
| GoldenCache.PruneForgets | strataqemu/overlay.py:112-126 | after pruning with images no guest has a golden to test; without, every guest has the one it had |
| GoldenCache.WhatIsLeft | strataqemu/image_build.py:963-1136 | each test run and each build that started and did not succeed leaves one run directory until the next prune; each build that got its source leaves the download |
| GoldenCache.GoldenOfKilledGuest | strataqemu/image_build.py:1071-1084 | a build can succeed and keep the disk of a guest that was killed |
| Waiting.DefaultMaxAttempts | strataqemu/image_build.py:312-314 | at least one turn, and as many as sleeps of two seconds fit into the timeout, plus one |
| Waiting.ProbeCounts | strataqemu/image_build.py:340-376 | what every probe does to the standing rejects: a rejected login adds itself even when its output also says that nothing listens, a probe that only says so clears them, finished or thrown, and any other leaves them |
| Waiting.MarkersClassify | strataqemu/image_build.py:272-309 | an output with one of the markers in it, in any case and anywhere, is classified by it |
| Waiting.StderrFirst | strataqemu/image_build.py:356-356 | what counts of a probe is stderr, and stdout in the same way only when stderr is empty |
| Waiting.WaitSsh | strataqemu/image_build.py:317-378 | it ends in the first turn that has an end; the counter is the number of standing rejects; it makes no more probes than the limit even if the clock stands still |
| Waiting.EndsMean | strataqemu/image_build.py:358-374 | it gives up exactly when the standing rejects reach the maximum and returns only on a zero status with the count below it |
| Waiting.ConsecutiveIff | strataqemu/image_build.py:361-376 | the rejects that reach the maximum are the last consecutive probes if and only if no unclassified probe came after a reject that was still counted |
| Waiting.RejectsNeedNotBeConsecutive | strataqemu/image_build.py:361-376 | two rejects around an unclassified failure reach a maximum of two |
| Waiting.KindsExist | strataqemu/image_build.py:272-309 | outputs of the three kinds in that history exist |
| Versions.NormalizeIdempotent | strataqemu/tests_spec.py:733-745 | normalising twice is normalising once, and a version matches its normal form |
| Versions.PrefixIgnored | strataqemu/tests_spec.py:733-745 | a leading v in either case and surrounding white space do not matter in front of a digit |
| Versions.LooksLikeIff | strataqemu/tests_spec.py:754-754 | a text looks like a version exactly when it starts with digits, a dot and a digit |
| Text.StripTrims | strataqemu/tests_spec.py:734-734 | stripping removes white space at both ends and nothing else |
| Versions.ParseUpdateFromVersions | strataqemu/tests_spec.py:759-779 | the loop over the parts yields the list its text stands for, or an error that names the first bad token |
| Versions.ListIsCanonical | strataqemu/tests_spec.py:766-779 | the list holds distinct canonical versions in the order of their first occurrence |
| Versions.ListRoundTrip | strataqemu/tests_spec.py:759-779 | parsing the comma-joined output returns it unchanged |
| Archives.CutOfStem | strataqemu/tests_spec.py:819-826 | a release name is cut at the end of the version exactly when the target marker does not start inside it |
| Archives.ArchiveRoundTripIff | strataqemu/tests_spec.py:793-832 | the version read back from a release name is the normalised version exactly when the target marker does not start inside it |
| Archives.MarkerInsideVersion | strataqemu/tests_spec.py:820-824 | a version that spells the target is such an exception |
| Archives.AnyArchiveParses | strataqemu/tests_spec.py:803-832 | names by others: in any directory, with prefix, architecture and any of the five extensions in any case, an optional v, and more or nothing after the architecture, the version of digits and dots is what is read |
| Archives.OneLineFollows | strataqemu/tests_spec.py:810-818 | after the prefix there must be one line, a final newline aside |
| Sessions.Select | strataqemu/session.py:91-132 | an x11 session of the user anywhere fails; otherwise the first eligible session that is not the SSH session is chosen; the last guard is unreachable |
| Sessions.VerdictPermutes | strataqemu/session.py:103-129 | failure, success and emptiness do not depend on the order of the listed rows |
| Sessions.OneSession | strataqemu/session.py:103-129 | what one listed session comes to, by its owner and the values of its Type, Class, State and Seat |
| Ports.FittingDisplays | strataqemu/ports.py:91-103 | a port fits as a display exactly when it is not zero and its TCP port exists, which holds up to 59635 |
| Ports.FallbackPorts | strataqemu/ports.py:104-114 | the fallback displays are served at TCP ports 11800 to 11899, none of which is probed |
| Ports.Binder.Bind | strataqemu/ports.py:33-46 | each bind opens one socket, and closes it again when the port is not granted |
| Ports.PairedClosesOnce | strataqemu/ports.py:49-58 | in the log of an allocation every socket that was opened is closed exactly once, and before the next one is opened |
| Ports.Binder.AllocateVncPort | strataqemu/ports.py:91-114 | the display is the ephemeral port when it fits, else the first granted fallback, else an error; its TCP port exists and is not the one probed; one socket is made per port tried, none after the port returned, and all are closed |
| Updating.Driver.Ssh | strataqemu/tests_spec.py:954-991 | each command is recorded before its answer, and what comes back is the guest's answer to that command; with check only a zero status returns |
| Updating.Driver.Capture | strataqemu/tests_spec.py:1099-1166 | it returns only with a PNG left by the last write: the fetch, or a VNC fallback without grim, which may repair a bad file from the guest; one attempt, no ordered command |
| Updating.Driver.About | strataqemu/tests_spec.py:1446-1550 | it appends its own step or raises, and sends no ordered command; the step passes exactly with a screenshot, which is a PNG, and is skipped only after keys that did not go through |
| Updating.PrintedVersion | strataqemu/tests_spec.py:705-737 | the observed version is the one named by the first line of output with anything on it, with or without the program name and a v, whatever blank lines come first and whatever follows |
| Updating.UsualOutput | strataqemu/tests_spec.py:719-745 | for the usual output the version observed is the one printed, and the oracle accepts it exactly when it matches |
| Updating.Driver.VersionOracle | strataqemu/tests_spec.py:1553-1607 | it goes on exactly after an answer it accepts; its step passes exactly when that answer is a version, and records the version in that answer |
| Updating.Driver.WindowChecked | strataqemu/tests_spec.py:2046-2107 | a failure of the final window check is raised only after a screenshot attempt since the launch; the step is recorded only with a PNG and a window |
| Updating.Driver.UpdateFrom | strataqemu/tests_spec.py:1838-2141 | for every guest the ordered commands, the commands with a good answer and the steps are prefixes of the plan, and nothing is sent unless the versions make sense; on return all are complete, the seeded version is the one asked for, and the versions recorded are exactly those the guest printed |

## Left out

- Recipes.CoveredRecipeFiles: recipes with symbolic links, for which `resolve()` is not the identity; the model is for symlink-free recipes.
- Inputs.SameCoveredSameInputsIff: what `bootstrap.sh` and the other recipe scripts read themselves is up to them; the statement is about the driver's reads. Whether the texts read are valid is a function of them and of the public key, and is not part of this model.
- Digests.AddressIffSameRecipe: the hash function is a parameter; its internals are not part of this model, and the absence of a collision is assumed only for the pairs compared.
- Png.PngRoundTrip: zlib is a pair of functions with the one assumption that inflating undoes compressing.
- Capturing.GrabPng: the handshake before ServerInit, whose reads are not exact. Server messages other than FramebufferUpdate are skipped four octets at a time, as the code does.
- Qga.Agent.FileWrite: JSON and base64 are a decoding function from lines to replies; a JSON `true` as count belongs to `Count(1)`. Agents that send several lines for one request are not modelled.
- GoldenCache.Cache.BuildLive: recipes that change while a build runs, moves that are not atomic, and interrupts between the launch and the bookkeeping. The `<id>.vars.fd`, symlink and provenance files are not content-addressed, so nothing is claimed about them; the host key and firmware template also enter a build without entering its address.
- Waiting.WaitSsh: what is written to logs and captured as evidence when the wait fails.
- Versions.NormalizeIdempotent: digits, whitespace and letter case are those of ASCII; likewise in every other text function.
- Sessions.Select: rows and properties arrive parsed; the text parsers `parse_list_sessions` and `parse_show_session` are not part of this model.
- Updating.Driver.UpdateFrom: the tests on command output, other than the version, are arbitrary functions of it; command strings, timings and the extra best-effort screen dump are dropped.
- Ports.Binder.AllocateVncPort: the SSH port allocation, which differs only in its fallback range.
- `wait_qga`, which is the loop of `wait_ssh` with fewer outcomes, and `wait_iso_autoinstall`, whose two phases differ in the probe command and a text match.
- `_without_backing_file_strict`, the QEMU, SSH and qemu-img argument builders, host checks, recipe field checks and cidata validators: one-branch code.
- `vm-live`, `spike`, the shell scripts and the command line.
