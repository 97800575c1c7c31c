# ESP32 controller firmware: a verified model

This project models the algorithmic parts of an ESP32 firmware with an OLED
display: drawing into page-packed frame buffers, tile-wise sprite redraw, a ring
buffer, the client/server parameter protocol, the timed machines around it, the
socket state machines, and the decimal numbers of the HTTP API. `dafny verify
dfyconfig.toml` checks everything.

Objects that the firmware updates in place are classes (`Canvas`, `Screen`,
`Pool`, `Ring`, `Client`, `Server`, `Store`, `FastAdd`, `KeepAlive`, `Button`);
their methods are proved against functions and predicates on plain values, and
the theorems are about those. Concurrent parts are state machines over their
atomic steps, with theorems over every run.

What the modules say, hardest first:

- `Picture`, `NanoCanvas`: a byte holds eight vertical pixels. `PixOf` is the only
  meaning of a buffer; every drawing routine is stated pixel by pixel, with
  everything else unchanged, including clipping, reversed corners and coordinates
  that wrap at 256.
- `TextLayout`, `TextStyles`, `TextPrinting`: which pixel of which character a
  fixed-font text shows where, in all three styles, and that `printFixed` draws
  exactly that.
- `Sprites`, `Redraw`, `SpritePool`: exactly when the display shows every sprite at
  its new place after `drawSprites`, and the remaining ones after `remove`.
- `Protocol`, over `ParseCmd`, `CmdClientReq`, `Packets`, `Parameters`: over all
  runs of callers, worker, server and two packet streams, a returned value is the
  one the server held when it handled that very request.
- `ServerBytes`, `Requests`: the same exchange in bytes: what every byte of a
  received frame does to the table and the answer, and that a value set comes back.
- `RingBuffer`, `RingBufferSpsc`, `WordBits`: a bounded FIFO over counters that
  wrap at 2^32, and the same ring with one producer and one consumer interleaved
  byte by byte.
- `Glcd`, `FastAdd`, `KeepAlive`, `Buttons`, `CmdClient`, `CmdServer`, `Decimal`.

Properties one would expect but the code does not have are stated with the exact
condition under which they hold:

- `SPRITE::getRect` returns blocks, `updateRegion` divides by eight again, so a
  sprite that moves far is not drawn at its new place. The comments on `getLRect`
  and `getUpdateRect` promise blocks too, but those two return pixels. And a sprite
  that slides in over the left or upper edge is not drawn in the tile it enters:
  `getUpdateRect` does not reach it (`Redraw.DrawSpritesExact`, `Redraw.LoneMove`;
  inputs in `Redraw.FarMoveLost`, `Redraw.EnteringColumnLost`).
- `SpritePool::remove` redraws the sprite's tiles while the sprite is still in the
  list, so the display keeps showing it (`Redraw.RemovalExact`,
  `Redraw.SettledRemoval`; input in `Redraw.RemovedStaysShown`).
- A glyph that fits the display is cut to its first row if its rows, padded to
  whole bytes, do not fit (`Glcd.WholeOrFirstRow`).
- Steps of ten leave the bounds if `max < 10` or `min + 10` wraps
  (`FastAdd.AddIsClamped`, `FastAdd.InBoundsAlways`).
- A keep-alive frame whose sending accepts still counts as one unanswered frame
  (`KeepAlive.AcceptedFrameCounts`).
- `parameters_setValue` does not look at the minimum that the start-up check
  demands (`Parameters.CheckAfterSet`).
- `%ld` prints values from 2^31 on with a minus sign (`Decimal.PrintThenParse`,
  `Decimal.PostThenGet`).
- The shift form of the page address is right only for widths that are powers of
  two from 8 on (`NanoCanvas.ShiftAddressing`).

Assumptions: plain `char` is unsigned; the millisecond clock does not wrap; a
canvas is 1..255 wide and a positive multiple of 8 high; reads, sends, clocks and
system-call results are inputs. `TIMEOUT` and `ERROR` of `cmdClientRead` come from
`app_config.h`, which is not part of this model, and are taken to be negative.

## Model

| member | source | states |
|---|---|---|
| NanoCanvas.Canvas.constructor | oled/src/nano_gfx.h:52-61 | a blank canvas, and the shift exponent that brackets the width between two powers of two |
| NanoCanvas.ShiftAddressing | oled/src/nano_gfx.cpp:31-37 | addressing by shift agrees with addressing by multiplication exactly for power-of-two widths from 8 on |
| NanoCanvas.PixelAddressInjective | oled/src/nano_gfx.cpp:31-37 | two in-range pixels share byte and bit only if they are the same pixel |
| Picture.PixelsDetermine | oled/src/nano_gfx.cpp:31-37 | two buffers with the same pixels are the same bytes |
| NanoCanvas.Canvas.PutPixel | oled/src/nano_gfx.cpp:39-50 | sets one pixel if it is on the canvas, and nothing else |
| NanoCanvas.Canvas.DrawHLine | oled/src/nano_gfx.cpp:52-60 | sets exactly the clipped span of one row, from 0 if the ends are reversed |
| NanoCanvas.Canvas.DrawVLine | oled/src/nano_gfx.cpp:62-70 | sets exactly the clipped span of one column, from 0 if the ends are reversed |
| NanoCanvas.Canvas.DrawRect | oled/src/nano_gfx.cpp:72-78 | sets exactly the four clipped edges |
| NanoCanvas.Canvas.FillRect | oled/src/nano_gfx.cpp:81-113 | every pixel of the normalised, clipped rectangle is bit y mod 8 of the template, every other pixel is unchanged |
| NanoCanvas.Spans | oled/src/nano_gfx.cpp:81-90 | ordered ends mean both and all between, reversed ones everything from 0 to the second |
| NanoCanvas.FillMask | oled/src/nano_gfx.cpp:94-106 | all four mask cases select exactly the rows of the bank that lie in the rectangle |
| NanoCanvas.Canvas.FillBank | oled/src/nano_gfx.cpp:107-111 | one bank takes the template in the masked rows of the span |
| NanoCanvas.Canvas.Clear | oled/src/nano_gfx.cpp:116-119 | no pixel is lit |
| NanoCanvas.Canvas.Invert | oled/src/nano_gfx.cpp:482-486 | every pixel is flipped |
| NanoCanvas.Canvas.CharF6x8 | oled/src/nano_gfx.cpp:122-166 | in every style, each pixel of the text line is one bit of one styled column of one character, cut at the right and lower edge; all else unchanged |
| NanoCanvas.LineColumn | oled/src/nano_gfx.cpp:129-165 | column d of that line is column d mod 6 of character d div 6 |
| NanoCanvas.LineByte | oled/src/nano_gfx.cpp:129-155 | in the font table: character c has the six bytes from (c - 32) * 6 on, below the space from (c + 224) * 6 on; normal as they are, bold with the byte before, italic with the byte after |
| TextStyles.NormalBit | oled/src/nano_gfx.cpp:292-295 | normal columns are the font's |
| TextStyles.BoldBit | oled/src/nano_gfx.cpp:296-302 | a bold pixel is lit if it or its left neighbour in the character is in the font |
| TextStyles.ItalicBit | oled/src/nano_gfx.cpp:303-309 | an italic character's lower half is shifted left by a column, its upper half not, and its first column has no upper half |
| NanoCanvas.Canvas.PutColumn | oled/src/nano_gfx.cpp:310-316 | the eight rows from y on take the bits of a column although they lie in two pages |
| NanoCanvas.Canvas.DrawGlyph | oled/src/nano_gfx.cpp:282-319 | one font page of one character, which TextPrinting.CharPixel reads off the font table, at its place, all else unchanged |
| NanoCanvas.Canvas.PrintFixed | oled/src/nano_gfx.cpp:247-322 | in every style: terminates, reads only the text, and leaves exactly the layout's picture of it, which TextPrinting.PrintedChar states in the bytes of the font |
| TextPrinting.CharByte | oled/src/nano_gfx.cpp:282-309 | column col of page p of character c is made of the table's byte ((c - 32) * pages + p) * width + col, of the space's byte for a control character, and, by style, of the byte before or after; the index wraps at 65536 |
| TextPrinting.CharPixel | oled/src/nano_gfx.cpp:282-309 | the same for each pixel of the character in the three styles |
| TextPrinting.PrintedChar | oled/src/nano_gfx.cpp:247-322 | after printing, each pixel of character c of the text, n to a line, at column c mod n and line c div n, is the bit of the font table's byte for that character |
| TextLayout.CharShown | oled/src/nano_gfx.cpp:257-321 | character c stands in column c mod n of line c div n, its font pages in that line's bands, as far as these fit |
| TextLayout.InkIsChar | oled/src/nano_gfx.cpp:257-321 | every pixel the layout inks belongs to one character's cell, page, column and row |
| TextLayout.LineFull | oled/src/nano_gfx.cpp:259 | the test for the right edge holds exactly when the line is full |
| TextLayout.NextBand | oled/src/nano_gfx.cpp:267-280 | a band further is a page further, and after the last page a line further |
| TextPrinting.AfterGlyph | oled/src/nano_gfx.cpp:282-320 | after a character the picture is right one cell further |
| TextPrinting.AfterBand | oled/src/nano_gfx.cpp:259-266 | at the end of a line the whole band is right |
| TextPrinting.OnToNextBand | oled/src/nano_gfx.cpp:261-280 | the loop variables stand at the start of the next band |
| TextPrinting.AtEnd | oled/src/nano_gfx.cpp:263-275 | when the loop ends, the whole picture is right |
| NanoCanvas.Canvas.DrawSprite | oled/src/nano_gfx.cpp:410-461 | ORs the 8x8 sprite at offsets modulo 256 in both directions, clipped, for both sprite routines over byte arrays |
| NanoCanvas.Canvas.DrawSpriteObject | oled/src/nano_gfx.cpp:463-475 | ORs w columns, rows modulo 256 but columns not wrapping |
| NanoCanvas.Canvas.DrawBitmap | oled/src/nano_gfx.cpp:426-445 | ORs the bitmap pixel by pixel at offsets modulo 256, clipped |
| NanoCanvas.BitmapBits | oled/src/nano_gfx.cpp:426-445 | pixel (dx, dy) of a bitmap is bit dy mod 8 of its byte dy / 8 * w + dx |
| NanoCanvas.BitmapLoopEnds | oled/src/nano_gfx.cpp:428-429 | the 8-bit row counter reaches the height, so that the loop ends, exactly for heights up to 248 |
| NanoCanvas.Canvas.OrColumn | oled/src/nano_gfx.cpp:417-420 | a byte split over two pages by shifts is eight pixels from row y on, modulo 256 |
| NanoCanvas.RowOfColumn | oled/src/nano_gfx.cpp:417-420 | a row is within eight of y modulo 256 exactly if it lies in one of the two pages on the right side of the split |
| NanoCanvas.SameBand | oled/src/nano_gfx.cpp:429-443 | pages of the bitmap stay pages of eight rows under the row wrap-around |
| SpritePool.Pool.constructor | oled/src/sprite_pool.cpp:29-39 | an empty pool over the whole display |
| SpritePool.Pool.ComposeTile | oled/src/sprite_pool.cpp:122-128 | the tile canvas shows the overlay of all sprites in this tile, although it draws at mod-256 offsets |
| SpritePool.Pool.RedrawTile | oled/src/sprite_pool.cpp:120-130 | the display shows the overlay in this tile and is unchanged elsewhere |
| SpritePool.Pool.UpdateRegion | oled/src/sprite_pool.cpp:108-132 | exactly the clipped tiles of the rectangle are repainted |
| SpritePool.Pool.DrawSprites | oled/src/sprite_pool.cpp:46-63 | the repainted tiles and the new last positions, also with a sprite in the pool twice; an up-to-date display is up to date again if and only if the pass is right |
| SpritePool.DistinctTiles | oled/src/sprite_pool.cpp:48-61 | with every sprite in the pool once, the tiles redrawn are those Redraw reasons about |
| SpritePool.Pool.RefreshScreen | oled/src/sprite_pool.cpp:65-71 | every tile of the active area is repainted |
| SpritePool.Pool.Add | oled/src/sprite_pool.cpp:73-83 | appends, or refuses when the pool is full |
| SpritePool.Pool.Remove | oled/src/sprite_pool.cpp:90-105 | the list without the sprite, in order; the old tiles repainted with the sprite still drawn; an up-to-date display is up to date again if and only if the removal is right |
| SpritePool.CloseGap | oled/src/sprite_pool.cpp:97-101 | the shifting loop removes one entry and keeps the order |
| SpritePool.RemoveFirst | oled/src/sprite_pool.cpp:93-104 | removes the first occurrence, if any |
| Sprites.NearIsOverlap | oled/src/nano_gfx_types.h:191-196 | for every width: without wrapping, a move is near exactly if old and new place overlap |
| Sprites.UpdateRectIsHull | oled/src/nano_gfx_types.h:239-256 | for every width: without wrapping, a near move's update rectangle is the least one around both places |
| Sprites.PlaceRects | oled/src/nano_gfx_types.h:206-231 | for every width: without wrapping, the pixels of the old place, and the blocks of the new one, except that a single column or block starts at 0 |
| Redraw.RedrawExact | oled/src/sprite_pool.cpp:46-63 | for all positions, widths and redrawn tiles: the pass is right for every choice of images if and only if every tile of the area that a moved sprite leaves or arrives at is redrawn |
| Redraw.DrawSpritesExact | oled/src/sprite_pool.cpp:46-63 | for 8x8 sprites at all positions, wrapping ones included, and areas of up to 30 tiles: drawSprites is right for every choice of images if and only if the tiles far-moved sprites arrive at, and the tiles near-moved ones enter over the left or upper edge, are redrawn |
| Redraw.OldPlaceRedrawn | oled/src/nano_gfx_types.h:222-256 | the old place is always redrawn, wherever it wraps |
| Redraw.NewPlaceRedrawn | oled/src/nano_gfx_types.h:206-256 | a tile of the new place is redrawn exactly if, after a near move, the sprite does not enter over an edge there, or, after a far move, it is the corner tile or under the old place |
| Redraw.UpdateCoversNew | oled/src/nano_gfx_types.h:239-256 | on one axis the update rectangle covers the new place but for tile 0 of a move from 242..248 to 249 or more |
| Redraw.UpdateCoversOld | oled/src/nano_gfx_types.h:239-256 | on one axis the update rectangle covers the old place |
| Redraw.LastCovers | oled/src/nano_gfx_types.h:222-231 | the last rectangle is exactly the old place |
| Redraw.BlockCovers | oled/src/nano_gfx_types.h:206-213 | of the new place, getRect shifted once more covers only the corner tile |
| Redraw.NearMovesRight | oled/src/nano_gfx_types.h:191-196 | a pass of near moves that do not enter over an edge of the area is right for every choice of images |
| Redraw.LoneMove | oled/src/sprite_pool.cpp:46-63 | a single sprite, near or far moved, at any position and for any area of up to 30 tiles, is shown right for every image if and only if each tile of the area it covers is one that is redrawn by the rule above |
| Redraw.FarMoveLost | oled/src/nano_gfx_types.h:206-213 | a move from (0,0) to (64,32) is not shown |
| Redraw.EnteringColumnLost | oled/src/nano_gfx_types.h:239-256 | a move from (248,0) to (249,0) does not show the column that enters on the left |
| Redraw.PassShown | oled/src/sprite_pool.cpp:46-63 | an up-to-date display is up to date after the repaint if and only if the pass is right |
| Redraw.RemovalExact | oled/src/sprite_pool.cpp:90-105 | for all positions, drawn or not: after a removal the display is right for every choice of images if and only if no redrawn tile is under the removed sprite or where another one has moved from or to, and no other tile is where the removed one was |
| Redraw.SettledRemoval | oled/src/sprite_pool.cpp:90-105 | with no sprite moved since it was drawn: if and only if the sprite was not in the pool or lies outside of the area |
| Redraw.RemovedStaysShown | oled/src/sprite_pool.cpp:92 | a lone sprite in the corner stays on the display when it is removed |
| Redraw.RemovalShown | oled/src/sprite_pool.cpp:90-105 | an up-to-date display is up to date after the repaint and the removal if and only if the removal is right |
| Redraw.WholeArea | oled/src/sprite_pool.cpp:65-71 | shifting the active area to pixels and back keeps it |
| RingBuffer.Ring.Init | drv/ringBuff.c:4-27 | succeeds exactly for a buffer with elements of positive size and a count that is 0 or a power of two, and is then empty |
| RingBuffer.Ring.Put | drv/ringBuff.c:39-55 | refused exactly when n_elem elements are unread, otherwise appends the element to the FIFO |
| RingBuffer.Ring.Get | drv/ringBuff.c:57-73 | refused exactly when the FIFO is empty, otherwise removes and returns its oldest element |
| RingBuffer.SizeTest | drv/ringBuff.c:13 | the init test accepts exactly 0 and the powers of two |
| RingBuffer.MaskedCounter | drv/ringBuff.c:45 | masking a counter is its remainder modulo the size |
| RingBuffer.HeadFollows | drv/ringBuff.c:29-47 | the head's slot follows the last unread element, also after both counters wrapped |
| RingBuffer.PutStep | drv/ringBuff.c:43-48 | overwriting the head's slot appends to the unread elements |
| RingBuffer.GetStep | drv/ringBuff.c:61-66 | advancing the tail drops the oldest unread element, which is in the tail's slot |
| WordBits.PowerOfTwoTest | drv/ringBuff.c:13 | (n-1) AND n is zero exactly for powers of two |
| WordBits.AndMask | drv/ringBuff.c:45 | AND with 2^k - 1 is the remainder modulo 2^k |
| WordBits.WrapThenMod | drv/ringBuff.c:45-47 | reducing a counter modulo 2^32 does not change its slot |
| RingBufferSpsc.RunInv | drv/ringBuff.c:39-73 | the invariant of every state of every interleaving of test, byte copy and publication |
| RingBufferSpsc.ReceivedIsPrefix | drv/ringBuff.c:39-73 | what was received is always a prefix of what was sent, at most n_elem behind |
| RingBufferSpsc.NoSlotShared | drv/ringBuff.c:45-46 | no slot is written while it is read |
| RingBufferSpsc.TestsExact | drv/ringBuff.c:29-37 | full and empty tests are exact in every reachable state |
| Packets.FrameFields | backend/parse_cmd.h:13-20 | every field of a frame is read back as it was written |
| Packets.FrameValue32 | backend/parse_cmd.h:13-20 | the 32-bit value field round-trips |
| Packets.FrameBytes | backend/parse_cmd.h:13-20 | a frame is 64, the number from its lowest byte on, command, type and index, the value, and zeros |
| Packets.LittleEndian | backend/parse_cmd.c:64 | four bytes are read as b0 + 256 b1 + 65536 b2 + 16777216 b3, and writing gives them back |
| Parameters.SetThenGet | backend/parameters.c:170-225 | a value is taken exactly if index and maximum allow, is then read back, and no other entry changes |
| Parameters.CheckAfterSet | backend/parameters.c:74-85 | after a set the start-up check passes exactly if the value reaches its minimum |
| Parameters.Store.Set | backend/parameters.c:210-225 | the table's new contents and the verdict |
| Parameters.Store.Get | backend/parameters.c:170-178 | the entry, 0 outside the table |
| Parameters.SetStringThenGet | backend/parameters.c:227-250 | a string is taken exactly if index and length allow, is read back wherever it fits with its terminator, and no other string and no value changes |
| Parameters.Store.SetDefaultValues | backend/parameters.c:162-168 | every value is its default |
| Parameters.Store.CheckValues | backend/parameters.c:74-85 | true exactly if every value is within both bounds |
| ParseCmd.Server.ParseServerBuffer | backend/parse_cmd.c:23-47 | terminates; handles the frames in order from the table as it stands and sends the bytes of their answers, which ServerBytes states in the buffer's bytes; parsed and remaining lengths add up to the input's |
| ParseCmd.FramesAreLongestChain | backend/parse_cmd.c:27-46 | the frames handled follow each other without gaps, and after them nothing, or no non-empty frame that fits, is left |
| ParseCmd.ParseAppend | backend/parse_cmd.c:23-47 | parsing whole packets and more is parsing the packets, then the rest |
| ParseCmd.ParsePackets | backend/parse_cmd.c:23-47 | parsing a buffer of whole packets is handling the packets one by one, whatever else is in memory |
| ParseCmd.DecodeLocal | backend/parse_cmd.c:58-156 | the handler reads nothing of a frame beyond its packet |
| ParseCmd.ParseKeepsTable | backend/parse_cmd.c:23-47 | whatever bytes arrive, no value passes its maximum and no string grows too long |
| ParseCmd.Server.ParseServer | backend/parse_cmd.c:58-156 | one frame: the table it leaves, and the bytes sent as its answer, if one is; ServerBytes states both in the frame's bytes |
| ParseCmd.Server.PrepareAnswer | backend/parse_cmd.c:49-56 | the header fields by position make an answer frame with an empty value |
| ParseCmd.HandleKeepsTable | backend/parse_cmd.c:70-143 | handling any message keeps the table's bounds, and every answer fits a packet |
| ParseCmd.SetThenGetAnswered | backend/parse_cmd.c:80-109 | in one buffer, a set within the maximum and any later get of the same index with no set of it between them are answered under their own numbers, the get with the value set; in bytes in ServerBytes.SetThenGetBytes |
| ParseCmd.SetStringThenGetAnswered | backend/parse_cmd.c:111-140 | the same for a string that is short enough |
| ParseCmd.AnswerAmongAll | backend/parse_cmd.c:23-47 | the answer to a frame stands behind those to the frames before it |
| ServerBytes.SetValueBytes | backend/parse_cmd.c:88-109 | in the bytes of a set frame: the table takes the number in bytes 8 to 11 exactly if it is within the maximum of the entry in byte 7; the answer repeats bytes 1 to 4 and says 0xFF or, refused, 0xFE; data gets none |
| ServerBytes.GetValueBytes | backend/parse_cmd.c:79-86 | in the bytes of a get frame: the answer repeats bytes 1 to 4 and the index and carries the entry's value, lowest byte first, or 0 outside of the table, which does not change |
| ServerBytes.SetStringBytes | backend/parse_cmd.c:111-131 | in the bytes of a string set: the string up to the first 0 is taken exactly if the entry exists and the 0 is among its 48 bytes; answered like a value |
| ServerBytes.GetStringBytes | backend/parse_cmd.c:133-140 | in the bytes of a string get: the answer carries the string if it leaves room for its terminator, and else nothing |
| ServerBytes.OtherBytes | backend/parse_cmd.c:70-156 | every other command or type changes nothing and is not answered |
| ServerBytes.SentInOrder | backend/parse_cmd.c:23-47 | the packets for a frame stand behind those for the frames before it |
| ServerBytes.SetThenGetBytes | backend/parse_cmd.c:79-109 | in one buffer, the answer to a get carries the four value bytes of the set before it, if their number is within the maximum and no frame between sets the entry |
| ServerBytes.SetStringThenGetBytes | backend/parse_cmd.c:111-140 | the same for the bytes of a string before its 0 |
| ServerBytes.SetThenGetFrames | backend/parse_cmd.c:79-109 | the same for packets as they are built: the answer to the get packet is the answer packet with the value that was set |
| ServerBytes.SetStringThenGetFrames | backend/parse_cmd.c:111-140 | the same for a string sent with its terminating 0 |
| ServerBytes.SetPacketVerdict | backend/parse_cmd.c:88-109 | the set packet itself is answered positively within the maximum, negatively beyond it, and not at all as data |
| CmdClientReq.Client.PrepareU32Msg | backend/cmd_client_req.c:170-225 | the next request number, and the packet, whose fields CmdClientReq.RequestRead reads back |
| CmdClientReq.RequestRead | backend/cmd_client_req.c:170-225 | the packet carries its number, 0x33 without a timeout and 0x11 with one, type and index, and for a set the value |
| Requests.RequestIsPacket | backend/cmd_client_req.c:170-225 | it is the packet of a call in Protocol, with the value as payload of a set |
| Requests.SetRequestHandled | backend/cmd_client_req.c:244-281 | the server stores the value of a set request exactly if it is within its maximum, and confirms or refuses it unless it came without a timeout |
| Requests.GetRequestHandled | backend/cmd_client_req.c:283-290 | the server answers a get request with the value it holds |
| Requests.SetComesBack | backend/cmd_client_req.c:283-363 | a value set within the server's maximum is what the next get returns and the local table then holds, exactly if that takes it |
| Requests.KeepAliveBytes | drv/keepalive.c:20 | the keep-alive frame, byte by byte |
| CmdClientReq.Client.ReceivePacket | backend/cmd_client_req.c:50-74 | result and bytes taken from the stream for every way it is cut into reads; the bytes are in the buffer, in order |
| CmdClientReq.ReceiveGoesOn | backend/cmd_client_req.c:50-74 | reading goes on while no read fails, none is late and the packet is not complete |
| CmdClientReq.ReceiveEnds | backend/cmd_client_req.c:50-74 | the last read decides: failed, timed out, or a complete packet |
| CmdClientReq.Client.RequestMsgProcess | backend/cmd_client_req.c:76-126 | result, answer, dropped packets and remaining stream for every way the stream is cut |
| CmdClientReq.AwaitCause | backend/cmd_client_req.c:98-123 | waiting fails only for a failed read or a deadline passed after a dropped packet, times out only for a late read, and goes on only without either |
| CmdClientReq.OkIsFirstMatch | backend/cmd_client_req.c:98-123 | success delivers the first packet with the wanted number, whole, and leaves the stream on the packet boundary behind it |
| CmdClientReq.PatientDelivers | backend/cmd_client_req.c:50-123 | if there is such a packet, enough turns without failure or lateness deliver it |
| CmdClientReq.Client.FinishGet | backend/cmd_client_req.c:315-362 | the checks on the answer, and the local table they lead to |
| CmdClientReq.AcceptedOrUnchanged | backend/cmd_client_req.c:315-362 | on success the local table holds the value, on failure it is as it was |
| CmdClientReq.AnswerAccepted | backend/cmd_client_req.c:315-362 | in the answer's bytes: accepted exactly with the number of the request in bytes 1 to 4, 0x22, 2, the index, and a value in bytes 8 to 11 that the local table takes |
| Protocol.InvAlways | backend/cmd_client_req.c:128-149 | in every state of every run: numbers identify calls, the queue is bounded, no request is on its way twice |
| Protocol.HandledOnce | backend/parse_cmd.c:58-156 | in every run each request is handled at most once |
| Protocol.AnswerIsToCall | backend/cmd_client_req.c:98-123 | the answer a call gets is the server's answer to that call's own message, stale answers notwithstanding |
| Protocol.GetIsAnswered | backend/cmd_client_req.c:283-363 | when cmdClientGetValue returns a value, the server held it when it handled this request, once, and the local table holds it; when it fails, the local table is unchanged, and with an answer it fails only if the local table refuses the value |
| Protocol.DroppedUntilMatch | backend/cmd_client_req.c:98-123 | receiving step by step drops all packets before the first with the number |
| Protocol.BytesAreSteps | backend/cmd_client_req.c:50-123 | when the byte loop over the joined stream delivers an answer, however it is cut into reads, the packet steps deliver the same and leave the same stream |
| Protocol.StepsAreBytes | backend/cmd_client_req.c:50-123 | if a packet step can deliver an answer, a patient byte loop does |
| Protocol.ServesAreParse | backend/parse_cmd.c:23-47 | serving k packets one by one leaves the table and the answers that parsing them from one buffer does |
| Protocol.UndisturbedGet | backend/cmd_client_req.c:283-363 | an exchange nothing disturbs succeeds exactly if the local table takes the value, whatever stale answers are in the stream |
| Glcd.Screen.PutPixel | oled_ui/oled.c:274-283 | sets one pixel if it is on the screen |
| Glcd.Screen.ClearPixel | oled_ui/oled.c:285-294 | clears one pixel if it is on the screen |
| Glcd.Screen.DrawRow | oled_ui/oled.c:313-344 | one glyph row up to the first bit outside of the display |
| Glcd.Screen.DrawGlcd | oled_ui/oled.c:296-347 | exactly the glyph's set bits up to the first bit outside of the display, padding included; returns w exactly if there is none |
| Glcd.WholeOrFirstRow | oled_ui/oled.c:319-330 | a glyph on the display is drawn whole exactly if its padded rows fit, otherwise only its first row is |
| Glcd.BlitBits | oled_ui/oled.c:296-347 | wherever the glyph is put, pixel (dx, dy) is bit dx mod 8 of byte dy * ((w + 7) / 8) + dx / 8, and drawn as far as rows padded to bytes fit, or only in the first row |
| Glcd.EraseRestores | oled_ui/oled.c:332-342 | white then black restores the buffer if and only if the glyph's pixels were blank |
| FastAdd.FastAdd.Start | drv/fast_add.c:13-42 | appends an entry unless the list is full or the value is registered |
| FastAdd.FastAdd.Stop | drv/fast_add.c:44-61 | swap-removal; the value is no longer registered, addresses stay distinct |
| FastAdd.OthersKept | drv/fast_add.c:52-54 | swap-removal keeps every other entry with its counters |
| FastAdd.FastAdd.Pass | drv/fast_add.c:120-146 | one pass over all entries: each one's counters and value, although values are shared memory |
| FastAdd.AddIsClamped | drv/fast_add.c:69-108 | a step is the clamped sum exactly if the compared bound does not wrap, and leaves the bounds otherwise |
| FastAdd.CountersAfter | drv/fast_add.c:124-142 | counter and delay after t passes |
| FastAdd.ValueAfter | drv/fast_add.c:116-150 | after t passes the value is the start value plus the step t/2 times (t <= 30) or t-15 times, clamped |
| FastAdd.HeldKey | drv/fast_add.c:69-150 | the same in figures for each of the four signs |
| FastAdd.InBoundsAlways | drv/fast_add.c:87-107 | the value never leaves its bounds if and only if the compared bound does not wrap |
| KeepAlive.KeepAlive.constructor | drv/keepalive.c:22-43 | the timeout raised to its minimum, the record inactive |
| KeepAlive.KeepAlive.Process | drv/keepalive.c:79-106 | what one pass does to a record, and what it emits |
| KeepAlive.Silence | drv/keepalive.c:63-111 | from any moment on without accepts, the deadline a timeout later: at most one error, after exactly the frames still missing of two, more than one timeout later for each of them and one more, and nothing after it |
| KeepAlive.SilenceAfter | drv/keepalive.c:45-56 | in the silence after an accept or a start of any record: frames more than one and two timeouts later, the error more than three, nothing else |
| KeepAlive.StartThenError | drv/keepalive.c:137-147 | after a start of any record, late enough passes do bring two frames and the error, and nothing else |
| KeepAlive.AcceptThenError | drv/keepalive.c:45-56 | the same after an accept of an active record |
| KeepAlive.QuietUntilStart | drv/keepalive.c:79-82 | an inactive record emits nothing and stays inactive, accepts included, until it is started |
| KeepAlive.QuietAfterStop | drv/keepalive.c:149-157 | so does any record after a stop |
| KeepAlive.ActiveUntilStop | drv/keepalive.c:149-157 | an active record stays active until it is stopped |
| KeepAlive.ErrorComes | drv/keepalive.c:79-106 | in any silent run without a stop in which three passes are late enough, each after the one before, the error is raised by then, after exactly two frames, and nothing follows |
| KeepAlive.AcceptedFrameCounts | drv/keepalive.c:92-96 | after a frame whose sending accepted, a silence brings one frame less and its error one timeout earlier |
| KeepAlive.AcceptingSends | backend/cmd_client.c:264-288 | where every send accepts, no run raises an error |
| Buttons.Button.Process | drv/but.c:159-206 | what one sample does to a button, and the callbacks in order |
| Buttons.RunEvents | drv/but.c:157-207 | a maximal low run gives one fall, the timer event at its 20th and the long event at its 100th sample, and one rise after it |
| Buttons.QuietEvents | drv/but.c:202-206 | outside of low runs nothing is called |
| Buttons.StateOfRun | drv/but.c:178-206 | the state is a function of the current low run's length, also when the counter wraps |
| CmdClient.Client.Task | backend/cmd_client.c:211-248 | one uninterrupted turn of the client's machine, whose runs the next rows are about |
| CmdClient.TurnIsMoves | backend/cmd_client.c:211-248 | an uninterrupted turn is its dispatch, its state function and its state change, which others may come between |
| CmdClient.ReadyIsConnected | backend/cmd_client.c:150-167 | in every run, whatever is forced or requested when, the client becomes ready only as the end of a turn in the connect state whose connect was not negative |
| CmdClient.ReadyStays | backend/cmd_client.c:169-178 | in every run, a ready client stays ready on the same socket until it is forced to close, stopped or asked to disconnect |
| CmdClient.GetsReady | backend/cmd_client.c:101-167 | a started idle client whose socket and connect succeed is ready after three turns, with that socket and without error, and after any further ones |
| CmdClient.StaysIdle | backend/cmd_client.c:101-119 | one that is not started stays idle, and a disconnect request takes the start back |
| CmdClient.GoesToClose | backend/cmd_client.c:124-178 | a turn leads to the close state exactly for a failed socket or connect, a stop or disconnect request when ready, or a socket left over; the error flag tells the failures |
| CmdClient.FailureEndsIdle | backend/cmd_client.c:124-207 | a failed socket or connect sets the error flag and leads through close and check to an idle client without socket and error |
| CmdClient.StopEndsIdle | backend/cmd_client.c:169-207 | a stop or disconnect request of a ready client closes its socket and leads to an idle one |
| CmdClient.SocketsConserved | backend/cmd_client.c:101-207 | at every moment of every run, opens minus closes is the one socket held, and an idle client holds none, whenever the request worker forces the close state |
| CmdClient.MoveKeeps | backend/cmd_client.c:316-353 | the invariant survives a forced close inside any state function |
| CmdServer.Server.Task | backend/cmd_server.c:329-370 | one turn of the server's machine |
| CmdServer.ReadyIsAccepted | backend/cmd_server.c:169-219 | in every run, a server that is ready or parsing is so since a turn that was listening, wanted, and accepted the connection it holds |
| CmdServer.GetsListening | backend/cmd_server.c:101-188 | a started idle server whose calls succeed listens after two turns, without error, and goes on while nobody connects |
| CmdServer.ServesConnection | backend/cmd_server.c:169-294 | when somebody connects it is ready, parses whatever is read and is ready again, on the same sockets |
| CmdServer.ParsesIf | backend/cmd_server.c:221-279 | it parses next exactly if it is ready, wanted, and a read brought something |
| CmdServer.ListensIf | backend/cmd_server.c:118-188 | it listens next exactly after bind and listen succeeded, even for a socket that could not be created, or while it is wanted and nobody connects |
| CmdServer.ClosesIf | backend/cmd_server.c:118-294 | it closes next exactly for a stop or disconnect request, a failed call, the end of the connection or a socket left over; the error flag tells the failed calls |
| CmdServer.Closes | backend/cmd_server.c:296-325 | closing ends in an idle server without sockets, error or disconnect request, what it held closed |
| CmdServer.StopEndsIdle | backend/cmd_server.c:169-325 | a stop or disconnect request of a listening, ready or parsing server ends there after three turns |
| CmdServer.Server.CreateSocState | backend/cmd_server.c:118-164 | going on after a failed socket() |
| CmdServer.SocketsConserved | backend/cmd_server.c:101-325 | at every moment of every run, opens minus closes is at most one listening socket and one connection, those held, and an idle server holds none |
| CmdServer.CloseKeeps | backend/cmd_server.c:296-313 | closing closes each held descriptor once |
| Sockets.ClosedBalanced | backend/cmd_server.c:296-313 | a close keeps the balance exactly if the descriptor is open |
| Decimal.Str2Int | mongoose_drv/parameters_api.c:48-64 | the value of the longest leading run of digits, as far as it fits a C int |
| Decimal.ValueOfMore | mongoose_drv/parameters_api.c:54-56 | a digit more is ten times the number plus the digit |
| Decimal.Digits | mongoose_drv/parameters_api.c:80 | digits without a leading zero whose value is the number |
| Decimal.DigitsOf | mongoose_drv/parameters_api.c:80 | they are the digits of a tenth of the number and then the last of "0123456789" |
| Decimal.PrintedSigned | mongoose_drv/parameters_api.c:80 | from 2^31 on, a minus sign and the digits of what is missing to 2^32 |
| Decimal.ParsedDigits | mongoose_drv/http_parameters_client.c:96-112 | a leading number is read exactly if and only if it is below 2^31, and modulo 2^32 as a parameter value, whatever follows it |
| Decimal.PrintThenParse | mongoose_drv/http_parameters_client.c:178 | reading undoes printing below 2^31 and gives 0 from there on |
| Decimal.PostThenGet | mongoose_drv/parameters_api.c:80-92 | a get echoes an accepted post's digits exactly below 2^31 |

## Left out

- NanoCanvas.Canvas.constructor: the buffer is exactly the canvas's part; bytes a caller's larger buffer has beyond it are not modelled. m_invertByte stays 0, so its terms are gone.
- NanoCanvas.Canvas.PrintFixed: a text shorter than 256, and not empty where there is room for a second font page, since the source then reads past its end; a character that fits right of xpos. Double-size text is not modelled.
- NanoCanvas.Canvas.DrawBitmap: heights up to 248; above, the source's 8-bit row counter wraps before it reaches the height and the loop does not end.
- SpritePool.Pool.DrawSprites: drawBlock is the base class's, which clears the tile; the active area lies on the display.
- Redraw.DrawSpritesExact: sprites eight columns wide, as they are drawn, and areas of up to 30 tiles; other widths and areas are in Redraw.RedrawExact.
- SpritePool.Pool.RedrawTile: the display is memory that drawBuffer writes; the bus transfer is not modelled.
- RingBuffer.Ring.Init: the null descriptor; memory allocation.
- RingBufferSpsc.ReceivedIsPrefix: steps are sequentially consistent; weaker memory orders are not modelled.
- CmdClientReq.Client.RequestMsgProcess: whole-send success or failure; the answer's caller-side copy has the packet's size.
- CmdClientReq.Client.PrepareU32Msg: string requests are only modelled as packets with any payload, in Protocol.
- ParseCmd.Server.ParseServerBuffer: packets split across two server reads; the bytes behind the received ones must be memory the handler may read.
- Protocol.GetIsAnswered: fewer than 2^32 requests, whole packets, a timeout other than 0 (with 0 the source has no answer buffer to read); taking a number and building its message is one step.
- cmdClientSetValue's result, which tests an unsigned error code for being negative; the server's keep-alive and wait-for-response helpers, which use another frame layout.
- Glcd.Screen.DrawGlcd: the screen offset is its initial (0, 0); cursor movement, UTF-8 decoding and font lookup are not modelled; glyphs are at most 255 wide and high.
- FastAdd.FastAdd.Pass: a pass, a start and a stop are atomic and always get the mutex; the callback on each new value is not modelled.
- KeepAlive.KeepAlive.Process: one record; the table of records and the clock's wrap-around are not modelled.
- Buttons.Button.Process: a null callback is a callback nobody observes; the buzzer and reading the pin are not modelled.
- CmdClient.Client.Task: addresses, delays, semaphores, log output, and the calls that start and stop the keep-alive record.
- CmdServer.Server.Task: addresses, delays, is_connected, the payload, and the calls that start and reset the keep-alive record.
- Decimal.Str2Int: overflow is taken modulo 2^32, as the target's instructions do; C leaves it undefined.
- flipH, fonts as data, menus, LEDs, buzzer, power, sleep, Wi-Fi, battery, sensors, NVS, OTA, TLS and HTTP routing: hardware glue or easy members.
