# jmge core, modelled in Dafny

A model of the core of jmge, a small Rust 2D game engine. It is written in Dafny 4.11 and proved there. It covers:

- **the entity-component store** (`ecs.rs`, module `Ecs`): a `World` and its `Entity` handles share one `WorldData`. That record holds a map from component type tag to a vector of optional slots, a stack of free ids, and the next unused id. Modelled as classes whose methods change that shared record.
- **the pixel canvas** (`canvas.rs`, module `Canvases`): a `w×h` array of packed colours, with fill, sub-rectangle copy, bounds-checked pixel access, text drawing and the clipping `blit`. The headline result is `Canvas.Blit`. After clipping step by step as the source does, it paints exactly the pixels whose offset lies inside both canvases (`BlitSpec`), and every read and write is in bounds.
- **packed RGBA colours** (`color.rs`, module `Colors`, over the bit-level `Bits` module): packing and unpacking round trips, and integer alpha blending.
- **input state** (`input.rs`, module `Inputs`): the mouse button bitmask with its previous frame, and the per-key frame counters.
- **bitmap fonts** (`font.rs`, modules `Glyphs` and `Fonts`): slicing a canvas into a 16×16 grid of 255 glyphs, glyph lookup and string widths.
- **draw batching**:
  - `SpriteBatch::draw` in `sprite.rs` (module `Sprites`);
  - `Renderer::render` and `count_similar` in `renderer.rs` (module `Renderers`).

  Both group consecutive items on the same raw texture into one draw call. Module `Batching` defines the maximal runs once and proves them unique, so the two implementations are specified by the same predicate (`DrawsFor`). Module `Vertices` holds the six-vertex quad layout that both write.
- **the in-memory sound cursor** `SoundReader` (`audio.rs`, module `Audio`).
- **the append-only data bin** (`dod.rs`, module `Dod`).
- **tile map construction** (`tilemap.rs`, module `TileMaps`).

Conventions:

- **Panics.** A Rust panic is the `Panic(msg)` case of an `Outcome`, with the source's message. It is not a precondition, so the conditions under which each operation panics are stated and proved.
- **Integers.** Fixed-width integers are the subset types `u8`, `u32`, `u64`, `i32` and `i64` (`Wrappers`). Casts that reinterpret bits, such as `u32 as i32` and `u64 as i64`, are written out (`AsI32`, `AsI64`).
- **Floats.** `f32` values are Dafny `real`s. They are only copied, except in `f2u` (`v * 255.0`) and in the channel reads `a`, `b`, `g` and `r` (`/ 255.0`).
- **Textures.** A texture is a value: a raw texture, or an entry of an atlas on a raw texture. `is_same` compares their raw ids.
- **Reference counting.** Weak references are modelled as follows:
  - `SpriteBatch` entries: a set of live sprites passed to `draw`;
  - `DataBin` handles: plain references.

## Model

| member | source | states |
|---|---|---|
| Ecs.WorldData.constructor | jmge/src/ecs.rs:40-45 | no component types, an empty free stack, next id 0 |
| Ecs.World.constructor | jmge/src/ecs.rs:38-51 | a new world owns fresh, empty world data |
| Ecs.World.RegisterComponent | jmge/src/ecs.rs:53-72 | panics with the duplicate message exactly when the tag is registered; otherwise installs an empty slot vector for it and changes nothing else |
| Ecs.World.NewEntity | jmge/src/ecs.rs:74-95 | pops the last free id when there is one; otherwise hands out the old `max_entity` and increments it; ids stay below `max_entity` and the components are untouched |
| Ecs.World.IterWith | jmge/src/ecs.rs:97-114 | panics exactly for an unregistered tag; otherwise yields the occupied slots' values in index order, changing nothing |
| Ecs.OccupiedMembers | jmge/src/ecs.rs:106-113 | a value is passed to the callback iff some slot holds it |
| Ecs.OccupiedLength | jmge/src/ecs.rs:106-113 | the callback runs at most once per slot, and once per slot exactly when every slot is occupied |
| Ecs.Place | jmge/src/ecs.rs:176-183 | the vector grows to id+1 with empty slots when too short; slot id holds the value and every other slot keeps its old content |
| Ecs.SetThenGet | jmge/src/ecs.rs:169-184 | after setting v, looking up the same tag and id gives v |
| Ecs.SetKeepsOthers | jmge/src/ecs.rs:176-183 | setting one (tag, id) leaves the lookup of every other (tag, id) unchanged |
| Ecs.SetTwice | jmge/src/ecs.rs:169-184 | a second set replaces the first |
| Ecs.Entity.constructor | jmge/src/ecs.rs:90-94 | an entity is its id and the shared world data |
| Ecs.Entity.TryGetComponent | jmge/src/ecs.rs:133-144 | panics exactly for an unregistered tag; None exactly when id ≥ length or the slot is empty; otherwise the slot's value |
| Ecs.Entity.GetComponent | jmge/src/ecs.rs:146-149 | panics exactly when the try variant panics or finds nothing, with the matching message; otherwise the try variant's value |
| Ecs.Entity.TryGetComponentMut | jmge/src/ecs.rs:151-162 | panics exactly for an unregistered tag; reports whether the slot is occupied; an update through it changes only that slot |
| Ecs.Entity.GetComponentMut | jmge/src/ecs.rs:164-167 | panics exactly when `get_component` would, changing nothing; otherwise the update is stored in that slot only |
| Ecs.Entity.SetComponent | jmge/src/ecs.rs:169-184 | panics exactly for an unregistered tag; otherwise the store becomes `Store(comps, tag, id, val)` |
| Ecs.Demo | test1/src/main.rs:73-89 | the demo's read returns the value set, and `iter_with` then sees the mutated value alone |
| Canvases.Canvas.Wrap | jmge/src/canvas.rs:113-118 | the struct literal: a w×h canvas over the given buffer |
| Canvases.Canvas.New | jmge/src/canvas.rs:17-46 | panics exactly when a dimension is 0; otherwise a fresh w×h canvas whose every pixel is `col` |
| Canvases.Canvas.FromRaw | jmge/src/canvas.rs:107-119 | panics exactly when w·h differs from the data length; otherwise wraps the data unchanged |
| Canvases.Canvas.Clear | jmge/src/canvas.rs:121-137 | every pixel becomes `col` (row 0 filled, then copied row by row) |
| Canvases.Canvas.CopyFirstRow | jmge/src/canvas.rs:132-136 | copying row 0 to the next row extends the prefix that holds `col` by one row |
| Canvases.ClearInBoundsIff | jmge/src/canvas.rs:121-137 | the writes of `clear` as written stay in the buffer iff h > 0 or w = 0 |
| Canvases.ClearEmptyRowsExample | jmge/src/canvas.rs:121-137 | a 5×0 canvas has an empty buffer, yet `clear` as written writes index 0 |
| Canvases.Canvas.Size | jmge/src/canvas.rs:146-149 | the dimensions, whose product is the buffer length |
| Canvases.Canvas.Contains | jmge/src/canvas.rs:198-202 | implies 0≤x<w and 0≤y<h, and is equivalent to it when the dimensions fit an i32 |
| Canvases.Canvas.GetPixel | jmge/src/canvas.rs:210-216 | the pixel at y·w+x inside the canvas, 0 outside |
| Canvases.Canvas.SetPixel | jmge/src/canvas.rs:204-208 | inside, exactly index y·w+x changes (and reads back); outside, nothing changes |
| Canvases.Canvas.Sub | jmge/src/canvas.rs:166-196 | panics exactly on a zero size or a window past the edge, with the source's messages; otherwise a fresh width×height canvas holding the window |
| Canvases.Canvas.CopyWindow | jmge/src/canvas.rs:175-192 | the row loop builds exactly the window's rows, concatenated |
| Canvases.SubRowsLength | jmge/src/canvas.rs:183-192 | the copied window has rows·width pixels |
| Canvases.SubRowsPixel | jmge/src/canvas.rs:166-196 | pixel (i, j) of the sub-canvas is pixel (x+i, y+j) of the source |
| Canvases.ClipAxis | jmge/src/canvas.rs:265-305 | along one axis, the early returns and four clipping steps leave a span iff some offset is covered by both canvases; the span is exactly the covered range [ClipLo, ClipHi) and lies inside both |
| Canvases.ClipBlit | jmge/src/canvas.rs:255-308 | the whole clipping: visible iff both axes are, and the clipped rectangle is the covered one, inside both canvases |
| Canvases.BlitEmpty | jmge/src/canvas.rs:255-269 | a blit with no covered offset leaves the destination unchanged |
| Canvases.ClipExact | jmge/src/canvas.rs:271-305 | the clipped rectangle paints the same pixels with the same source pixels as the requested one |
| Canvases.BlitRowStep | jmge/src/canvas.rs:317-347 | one more row of the clipped rectangle paints exactly one span of the destination from one span of the source |
| Canvases.Canvas.PaintRow | jmge/src/canvas.rs:319-327 | the inner alpha loop paints n consecutive pixels with `blend` of source over destination, nothing else |
| Canvases.Canvas.CopyRow | jmge/src/canvas.rs:343 | the raw row copy overwrites n consecutive pixels with the source's, nothing else |
| Canvases.Canvas.PaintRowAt | jmge/src/canvas.rs:317-334 | one turn of the alpha row loop extends the painted rows by one |
| Canvases.Canvas.CopyRowAt | jmge/src/canvas.rs:339-347 | one turn of the copy row loop extends the copied rows by one |
| Canvases.Canvas.PaintRows | jmge/src/canvas.rs:314-335 | the alpha loops over the clipped rectangle yield `BlitSpec` with `blend` |
| Canvases.Canvas.CopyRows | jmge/src/canvas.rs:336-348 | the copy loops over the clipped rectangle yield `BlitSpec` with a raw copy |
| Canvases.Canvas.Blit | jmge/src/canvas.rs:252-349 | the destination becomes `BlitSpec`: every destination pixel whose offset lies inside both canvases is painted from the matching source pixel, every other pixel is unchanged, and all accesses are in bounds |
| Canvases.GlyphPaintCovers | jmge/src/canvas.rs:226-233 | after the glyph loop, a pixel is blended with `col` iff a set glyph pixel lands on it inside the canvas |
| Canvases.GlyphCoversAll | jmge/src/canvas.rs:226-233 | the pixel (X, Y) is covered iff it is inside the canvas and the glyph pixel at (X−x, Y−y) is nonzero |
| Canvases.Canvas.DrawGlyphPixel | jmge/src/canvas.rs:228-232 | one turn of the glyph loop extends the painted glyph pixels by one |
| Canvases.Canvas.DrawChar | jmge/src/canvas.rs:218-241 | returns the glyph width (0 for an unmapped character, which changes nothing) and paints as `DrawCharSpec` |
| Canvases.Canvas.DrawText | jmge/src/canvas.rs:243-250 | the canvas becomes `DrawTextSpec`: characters drawn in order, each advanced by the widths before it |
| Canvases.DrawTextAppend | jmge/src/canvas.rs:243-250 | drawing s+t is drawing s, then t at x + str_width(s) |
| Canvases.DrawTextStep | jmge/src/canvas.rs:246-249 | one loop turn draws the next character at x plus the widths so far |
| Colors.Rgba8Shifts | jmge/src/color.rs:34-37 | `shift(a,24) \| shift(b,16) \| shift(g,8) \| r` is the packed value a·2²⁴+b·2¹⁶+g·2⁸+r |
| Colors.Shift | jmge/src/color.rs:15-18 | `shift(v, c)` moves the byte v up to start at bit c: nothing below bit c, and dividing by 2^c gives v back |
| Colors.Rgba8 | jmge/src/color.rs:34-37 | `r8`, `g8`, `b8`, `a8` of `rgba8(r,g,b,a)` are r, g, b, a |
| Colors.Rgba | jmge/src/color.rs:24-27 | each channel of `rgba(r,g,b,a)` is `f2u` of the matching float |
| Colors.Rgb | jmge/src/color.rs:29-32 | as `rgba`, with alpha 255 |
| Colors.PackUnpack | jmge/src/color.rs:34-47 | `rgba8` of a colour's four channels is that colour |
| Colors.A8 | jmge/src/color.rs:44 | the alpha byte (bits 24..31) is what `(c >> 24) & 0xFF` extracts |
| Colors.B8 | jmge/src/color.rs:45 | the blue byte (bits 16..23) is what `(c >> 16) & 0xFF` extracts |
| Colors.G8 | jmge/src/color.rs:46 | the green byte (bits 8..15) is what `(c >> 8) & 0xFF` extracts |
| Colors.R8 | jmge/src/color.rs:47 | the red byte (bits 0..7) is what `c & 0xFF` extracts |
| Colors.Channel | jmge/src/color.rs:49-52 | a channel as a float lies in [0, 1] and scales back to its byte |
| Colors.Rgb8 | jmge/src/color.rs:39-42 | alpha 255 and the given r, g, b |
| Colors.F2U | jmge/src/color.rs:5-13 | 255 from 1.0 up, 0 from 0.0 down, and between them the truncation of v·255 |
| Colors.ChannelRoundTrip | jmge/src/color.rs:49-52 | a channel read as a float lies in [0, 1] and converts back to the same byte |
| Colors.FloatRoundTrip | jmge/src/color.rs:24-52 | `rgba` of a colour's four float channels is that colour |
| Colors.White | jmge/src/color.rs:24-42 | `rgba(1,1,1,1)`, `rgb(1,1,1)` and `rgb8(255,255,255)` are all 0xFFFFFFFF |
| Colors.Blend | jmge/src/color.rs:54-83 | `blend` returns self for source alpha 255 and the other colour for 0; otherwise each channel is s·sa/255 + d·(255−sa)/255 and alpha is min(sa+da, 255) |
| Colors.MixBound | jmge/src/color.rs:73-77 | the two terms of a blended channel are at most sa and 255−sa |
| Colors.MixAtMostMax | jmge/src/color.rs:73-82 | a blended channel never exceeds the larger of its inputs, so the `as u8` cast never truncates |
| Colors.BlendAlphaMonotone | jmge/src/color.rs:78-80 | blending never lowers the destination's alpha |
| Inputs.ButtonMask | jmge/src/input.rs:54 | `1 << but` is 2^but |
| Inputs.SetButtonBit | jmge/src/input.rs:58 | `buts \| mask` sets bit `but` and keeps the other bits |
| Inputs.ClearButtonBit | jmge/src/input.rs:62 | `buts & (255 − mask)` clears bit `but` and keeps the other bits |
| Inputs.ButtonTest | jmge/src/input.rs:75 | `buts & (1 << but) > 0` iff bit `but` is set |
| Inputs.ButtonOnly | jmge/src/input.rs:84 | `buts == 1 << but` iff `but` is the only bit set |
| Inputs.ButtonSet | jmge/src/input.rs:56-59 | pressing button `but` sets its bit, keeps every other button's, and stays a byte |
| Inputs.ButtonCleared | jmge/src/input.rs:60-63 | releasing button `but` clears its bit and keeps every other button's |
| Inputs.Mouse.constructor | jmge/src/input.rs:18-29 | every field zero |
| Inputs.Mouse.Reset | jmge/src/input.rs:31-37 | the old position and buttons become the current ones, after which `moved()` is false and the delta is (0, 0) |
| Inputs.Mouse.SetPos | jmge/src/input.rs:39-44 | sets x, y and nothing else |
| Inputs.Mouse.SetBut | jmge/src/input.rs:51-64 | panics exactly for an index above 7; otherwise sets (down) or clears (up) bit `but`, keeping the other bits and fields |
| Inputs.Mouse.ButDown | jmge/src/input.rs:69-76 | panics exactly above 7; otherwise whether the bit is set |
| Inputs.Mouse.ButDownOnly | jmge/src/input.rs:78-85 | panics exactly above 7; otherwise whether it is the only bit set |
| Inputs.Mouse.ButPressed | jmge/src/input.rs:87-94 | panics exactly above 7; otherwise set now and clear on the previous frame |
| Inputs.Mouse.ButReleased | jmge/src/input.rs:96-103 | panics exactly above 7; otherwise clear now and set on the previous frame |
| Inputs.PressedNotReleased | jmge/src/input.rs:87-103 | a button is never both pressed and released, and a pressed button is down |
| Inputs.NoEdgesAfterReset | jmge/src/input.rs:87-103 | with the buttons equal to the previous frame's, as after `reset`, nothing is pressed or released |
| Inputs.MovedDelta | jmge/src/input.rs:48-49 | `moved()` iff `pos_delta()` is not (0, 0) |
| Inputs.AdvanceAt | jmge/src/input.rs:132-144 | after a frame, a zero counter stays 0 and any other goes up by one |
| Inputs.AdvanceKeepsState | jmge/src/input.rs:132-144 | a frame keeps every key's down state and leaves no key pressed |
| Inputs.PressThenFrame | jmge/src/input.rs:141-166 | a key just pressed is down and pressed; one frame later it is down but no longer pressed |
| Inputs.ReleaseThenFrame | jmge/src/input.rs:146-172 | a key released after being down is released on that frame and not on the next |
| Inputs.Keyboard.constructor | jmge/src/input.rs:122-130 | every counter 0 on both frames |
| Inputs.Keyboard.Reset | jmge/src/input.rs:132-144 | the old counters become the current ones, and the current ones advance |
| Inputs.Keyboard.SetKey | jmge/src/input.rs:146-154 | `Key::Unknown` changes nothing; otherwise that key's counter becomes 1 (down) or 0 (up) and no other changes |
| Inputs.Keyboard.KeyDown | jmge/src/input.rs:156-160 | panics (index out of bounds) exactly for `Key::Unknown`; otherwise counter > 0 |
| Inputs.Keyboard.KeyPressed | jmge/src/input.rs:162-166 | panics exactly for `Key::Unknown`; otherwise counter == 1 |
| Inputs.Keyboard.KeyReleased | jmge/src/input.rs:168-172 | panics exactly for `Key::Unknown`; otherwise counter == 0 and the old counter > 0 |
| Inputs.Input.constructor | jmge/src/input.rs:190-197 | a fresh mouse and keyboard, all zero |
| Inputs.Input.Reset | jmge/src/input.rs:199-204 | resets the mouse and the keyboard as their own `reset`s do |
| Glyphs.GetGlyph | jmge/src/font.rs:173-185 | None exactly for an unmapped character; otherwise one of the font's glyphs |
| Glyphs.CharWidth | jmge/src/font.rs:187-195 | the mapped glyph's width, or 0 when unmapped |
| Glyphs.StrWidth | jmge/src/font.rs:197-201 | a string is at least as wide as each of its characters |
| Glyphs.StrWidthZero | jmge/src/font.rs:197-201 | a string has width 0 exactly when every character in it has width 0 |
| Glyphs.StrWidthAppend | jmge/src/font.rs:197-201 | the width of s+t is the width of s plus the width of t |
| Glyphs.StrWidthStep | jmge/src/font.rs:197-201 | the width of a prefix one longer adds the next character's width |
| Glyphs.StrWidthUniform | jmge/src/font.rs:197-201 | characters all w wide make a string |s|·w wide |
| Fonts.GridMapIdentity | jmge/src/font.rs:140-145 | the character map holds exactly the codes below n, each mapped to itself |
| Fonts.CellInside | jmge/src/font.rs:150-157 | every one of the 256 grid cells lies inside the canvas |
| Fonts.CellGlyphsIndex | jmge/src/font.rs:148-161 | glyph i of the vector is the cell of code i |
| Fonts.CellGlyphValid | jmge/src/font.rs:150-160 | each cell glyph holds exactly (w/16)·(h/16) pixels |
| Fonts.CellGlyphPixel | jmge/src/font.rs:150-161 | pixel (i, j) of glyph c is canvas pixel ((c%16)·cw + i, (c/16)·ch + j) |
| Fonts.GridFontValid | jmge/src/font.rs:140-168 | the built font maps into its 255 glyphs, each the size of a cell |
| Fonts.GridFontGlyph | jmge/src/font.rs:173-195 | in a built font, codes 0..254 have their cell's glyph and are w/16 wide; every other character has none and width 0 |
| Fonts.GridFontStrWidth | jmge/src/font.rs:197-201 | in a built font, a string of codes below 255 is |s|·(w/16) wide |
| Fonts.FromCanvas | jmge/src/font.rs:126-171 | a LoadFont error exactly when a dimension is not a multiple of 16; a panic in `sub` when one is 0; otherwise, whenever both dimensions are non-zero multiples of 16, always the grid font, with height h/16 |
| Batching.IsSameEquivalence | jmge/src/texture.rs:57-61 | `is_same` is reflexive, symmetric and transitive, and relates an atlas entry to a raw texture exactly when it lives on it |
| Batching.RunsUnique | jmge/src/renderer.rs:308-323 | a texture sequence has exactly one division into maximal runs |
| Batching.RunsAgree | jmge/src/renderer.rs:308-323 | two divisions into maximal runs agree run by run |
| Batching.RunLast | jmge/src/renderer.rs:311-323 | only the last run reaches the end |
| Batching.RunEnd | jmge/src/renderer.rs:285-289 | a run ends at the end or before a texture that is not the same as its first |
| Batching.RunsCover | jmge/src/renderer.rs:311-323 | every index before n lies in some run |
| Batching.RunsDisjoint | jmge/src/renderer.rs:311-323 | no index lies in two runs |
| Batching.RunsAscend | jmge/src/renderer.rs:311-323 | runs follow each other in order without overlap |
| Batching.RunsAppend | jmge/src/renderer.rs:314-322 | appending a run of same textures that differs from the previous run extends the division |
| Batching.DrawsUnique | jmge/src/sprite.rs:304-310 | the draw calls for a texture sequence are determined by it |
| Batching.DrawnOnce | jmge/src/renderer.rs:308-323 | each item is drawn by exactly one call, whose texture is the same as its own |
| Vertices.RectShape | jmge/src/sprite.rs:60-77 | the six vertices are the two triangles on the corners (0,0),(w,0),(0,h) and (w,0),(w,h),(0,h), each with the matching uv corner and the quad's placement |
| Vertices.WriteRect | jmge/src/renderer.rs:185-202 | writes the six vertices at `at..at+6` and nothing else |
| Renderers.NewRenderable | jmge/src/renderer.rs:55-71 | the given texture and position, visible, white, scale (1,1), origin (0,0), angle 0 |
| Renderers.NewQuad | jmge/src/renderer.rs:108-126 | the texture's size, at the origin, opaque white, unscaled, unrotated |
| Renderers.WithPos | jmge/src/renderer.rs:128-133 | sets x, y and nothing else |
| Renderers.WithSize | jmge/src/renderer.rs:135-140 | sets w, h and nothing else |
| Renderers.WithColor | jmge/src/renderer.rs:142-146 | sets the colour and nothing else |
| Renderers.WithScale | jmge/src/renderer.rs:148-153 | sets the scale and nothing else |
| Renderers.WithAngle | jmge/src/renderer.rs:155-159 | sets the angle and nothing else |
| Renderers.WithOrigin | jmge/src/renderer.rs:161-166 | sets the origin and nothing else |
| Renderers.BuildersCommute | jmge/src/renderer.rs:128-166 | builders on different fields commute; the same builder twice keeps the second value |
| Renderers.QuadVertices | jmge/src/renderer.rs:168-202 | six vertices, each carrying the quad's colour, position, scale, angle and negated origin, at a corner of the w×h rectangle |
| Renderers.Renderer.constructor | jmge/src/renderer.rs:217-236 | an empty queue |
| Renderers.Renderer.AddQuad | jmge/src/renderer.rs:238-242 | appends the quad to the queue |
| Renderers.Renderer.WriteVb | jmge/src/renderer.rs:264-276 | quad i's six vertices are written at 6i..6i+6 |
| Renderers.Renderer.CountSimilar | jmge/src/renderer.rs:278-295 | 1 ≤ count ≤ len−start; every quad of the run is the same as quad `start`; the next quad, if any, is not |
| Renderers.Renderer.DrawRuns | jmge/src/renderer.rs:307-323 | the loop issues one call per maximal run, in order, covering the queue (`DrawsFor`), and terminates |
| Renderers.Renderer.Render | jmge/src/renderer.rs:297-327 | the vertex buffer and the draw calls as above, then an empty queue |
| Sprites.NewMetrics | jmge/src/sprite.rs:42-58 | at the origin, size 0, white, scale (1,1), angle 0, origin (0,0) |
| Sprites.MetricsVertices | jmge/src/sprite.rs:60-77 | six vertices, each carrying the sprite's colour, position, scale, angle and negated origin, at a corner of the w×h rectangle with a corner of the texture rectangle |
| Sprites.Sprite.constructor | jmge/src/sprite.rs:115-130 | default metrics sized to the texture, that texture, visible |
| Sprites.Sprite.SetPos | jmge/src/sprite.rs:132-136 | sets x, y only |
| Sprites.Sprite.SetColor | jmge/src/sprite.rs:138-141 | sets the colour only |
| Sprites.Sprite.SetScale | jmge/src/sprite.rs:143-147 | sets the scale only |
| Sprites.Sprite.SetAngle | jmge/src/sprite.rs:149-152 | sets the angle only |
| Sprites.Sprite.SetOrigin | jmge/src/sprite.rs:154-158 | sets the origin only |
| Sprites.Sprite.SetTexture | jmge/src/sprite.rs:160-166 | sets the texture and w, h to its size; nothing else |
| Sprites.Sprite.SetVisible | jmge/src/sprite.rs:168-171 | sets visibility only |
| Sprites.Sprite.Show | jmge/src/sprite.rs:173-176 | visible, nothing else changes |
| Sprites.Sprite.Hide | jmge/src/sprite.rs:178-181 | hidden, nothing else changes |
| Sprites.SpriteBatch.constructor | jmge/src/sprite.rs:213-220 | no sprites |
| Sprites.SpriteBatch.Add | jmge/src/sprite.rs:222-230 | appends exactly that sprite and returns it |
| Sprites.LiveMembers | jmge/src/sprite.rs:235 | the retained entries are exactly the live ones, and no more than there were |
| Sprites.LiveAppend | jmge/src/sprite.rs:235 | `retain` keeps order: filtering a concatenation is concatenating the filtered parts |
| Sprites.LiveOne | jmge/src/sprite.rs:235 | a single sprite is kept exactly when it is alive |
| Sprites.BatchFirst | jmge/src/sprite.rs:275-279 | the first visible sprite opens a batch at index 0 with no closed batch |
| Sprites.BatchSame | jmge/src/sprite.rs:257-274 | a sprite on the same raw texture joins the open batch, which stays one run of same textures |
| Sprites.BatchNew | jmge/src/sprite.rs:259-273 | a sprite on another raw texture closes the open batch as one more maximal run and opens a new batch at its index |
| Sprites.BatchFinish | jmge/src/sprite.rs:291-301 | closing the open batch after the last sprite completes the division into maximal runs, and the batches give one call per run |
| Sprites.BatchCalls | jmge/src/sprite.rs:304-310 | one call per batch, in order, with its texture and the vertex range of six vertices per sprite |
| Sprites.BatchOfState | jmge/src/sprite.rs:254-279 | the batching loop's state after any sequence of visible textures: closed batches are the maximal runs so far, and the open batch is the current run |
| Sprites.NextBatch | jmge/src/sprite.rs:257-279 | one visible sprite's batching step, as the step function |
| Sprites.FinalBatch | jmge/src/sprite.rs:290-301 | closing the open batch, if any, gives the batches for all visible textures |
| Sprites.BatchesDraw | jmge/src/sprite.rs:290-310 | the final batches' draw calls are one per maximal run of the visible textures (`DrawsFor`); none when nothing is visible |
| Sprites.WriteSprite | jmge/src/sprite.rs:283 | the sprite's six vertices go at 6·pos, earlier sprites' vertices are kept |
| Sprites.ProgressStep | jmge/src/sprite.rs:254-287 | a visible sprite joins the batching and advances pos; a hidden one changes nothing |
| Sprites.DrawStep | jmge/src/sprite.rs:249-288 | one turn of the loop keeps vertices and batches in step with the visible sprites so far |
| Sprites.DrawViews | jmge/src/sprite.rs:237-302 | after the loop, visible sprite p's vertices are at 6p..6p+6 and the batches are those of the visible textures |
| Sprites.SpriteBatch.Draw | jmge/src/sprite.rs:232-311 | keeps the live sprites in order; writes six vertices per visible one; the draw calls are one per maximal run of visible sprites on the same raw texture |
| Audio.Clamp | jmge/src/audio.rs:116-120 | the position clamped into [0, len] |
| Audio.SeekInside | jmge/src/audio.rs:107-123 | `seek` lands inside the data, and `Start`, forward `End` and backward `Current` moves never panic |
| Audio.SeekExact | jmge/src/audio.rs:109-122 | `Start(x)` goes to x, `End(0)` to len, `End(x)` to len−x, `Current(0)` stays |
| Audio.SeekCurrentTwice | jmge/src/audio.rs:113-122 | two forward moves inside the data are one move by their sum |
| Audio.SeekClamps | jmge/src/audio.rs:116-120 | a target past the end gives len, a negative target 0 |
| Audio.ReadPanicsNearEnd | jmge/src/audio.rs:137-141 | `read` as written panics exactly when some but fewer than `buf.len()` bytes remain |
| Audio.ReadPanicExample | jmge/src/audio.rs:137-141 | 3 bytes, position 1, a 4-byte buffer: the source panics, the corrected read returns 2 |
| Audio.ReadCount | jmge/src/audio.rs:134-138 | the corrected count: at most the buffer and the bytes left, 0 exactly at the end or for an empty buffer, and otherwise fills the buffer or reaches the end |
| Audio.ReadCountAgrees | jmge/src/audio.rs:128-145 | the corrected count equals the source's wherever the source does not panic |
| Audio.ReadAllIsRest | jmge/src/audio.rs:128-145 | reading with the corrected `read` until it returns 0 yields exactly the rest of the data |
| Audio.SoundReader.constructor | jmge/src/audio.rs:95-102 | at position 0 |
| Audio.SoundReader.Seek | jmge/src/audio.rs:107-123 | panics as `SeekOutcome` does, otherwise moves to and returns the clamped target |
| Audio.SoundReader.Read | jmge/src/audio.rs:128-145 | returns `ReadOutcome`; on success copies the bytes at the position into the buffer and advances past them; otherwise changes nothing |
| Audio.SoundReader.ReadFixed | jmge/src/audio.rs:128-145 | the corrected `read`: copies `ReadCount` bytes to the front of the buffer and advances by that many |
| Audio.CopyInto | jmge/src/audio.rs:141 | the front of the buffer becomes the slice, the rest is untouched |
| Dod.DataStore.constructor | jmge/src/dod.rs:24-28 | no values, no handles |
| Dod.DataBinHandle.constructor | jmge/src/dod.rs:43-47 | a handle is its store and its index |
| Dod.DataBin.constructor | jmge/src/dod.rs:21-34 | a fresh, empty store |
| Dod.DataBin.Insert | jmge/src/dod.rs:36-54 | the value is appended, the earlier ones kept; the handle names the new last index; one handle per value still holds |
| Dod.InsertThree | jmge/src/dod.rs:36-54 | three inserts into a new bin hand out indices 0, 1, 2, each naming its own value |
| TileMaps.NewTileMap | jmge/src/tilemap.rs:27-48 | panics on a zero map size, then on a zero tile size, then on a tileset not divisible into tiles, with those messages; succeeds exactly otherwise |
| TileMaps.NewTileMapSizes | jmge/src/tilemap.rs:50-63 | `size()`, `tile_size()` and `texture()` of a built map return the constructor's arguments |
| TileMaps.TilesetGrid | jmge/src/tilemap.rs:36-38 | a built map's tileset is a whole grid of tiles |
| Wrappers.AsI32 | jmge/src/canvas.rs:258-263 | `u32 as i32`: identity below 2³¹, negative from there |
| Wrappers.AsI64 | jmge/src/audio.rs:111 | `u64 as i64`: identity below 2⁶³, negative from there |

## Left out

- GPU and windowing code:
  - GL objects, shaders, the projection matrix, `calc_transform_matrix`, `enable` and `draw_triangles`: the vertex buffer and the draw calls are results of `render` and `draw` instead;
  - `shader.rs`, `vbo.rs`, `window.rs`, raw textures and atlas packing in `texture.rs`, `TileMapRenderer`.
- Code that calls crates or does I/O:
  - image decoding (`Canvas::from_image`, `from_file`, `from_memory_file`);
  - audio output (`Audio`, `SoundControl`, `Sound`).
- `Renderer::add_world`: it calls `World::iter`, which `ecs.rs` does not define.
- Rust runtime machinery:
  - `RefCell` borrow checking, so a callback of `iter_with` that borrows the world mutably is not modelled (`IterWith` returns the values the callback would receive);
  - `TypeId` and `downcast` (tags and a value type parameter instead).
- Weak references:
  - `SpriteBatch` entries: liveness is the `alive` set given to `draw`;
  - `DataBin` handles: plain references.
- Floating-point rounding: `f32` values are exact reals, so the `as f32` conversions of positions and sizes are exact, and so are `v * 255.0` in `f2u` and `/ 255.0` in the channel reads. `Colors.Channel`, `Colors.ChannelRoundTrip` and `Colors.FloatRoundTrip` rest on the exact quotient, not on the rounded `f32` one.
- Canvases.Canvas.FromRaw: computes w·h exactly; the source's `u32` product overflows (a panic in a debug build) for huge dimensions.
- Canvases.Canvas.Sub: the `u32` sums `x+w`, `y+h` and products are exact; their overflow is not modelled.
- Canvases.Canvas.Blit: the `u32 as i32` casts of the sizes and dimensions are modelled, but the `i32` sums such as `dx+w` are exact; their overflow is not modelled.
- Canvases.Canvas.GetPixel: the index `y·w + x` is exact, not an `i32`.
- Canvases.Canvas.SetPixel: the index `y·w + x` is exact, not an `i32`.
- Canvases.Canvas.DrawChar: the pen position `x + cx` is an unbounded integer, not an `i32`.
- Canvases.Canvas.DrawText: the advancing `x` is an unbounded integer, not an `i32`.
- Canvases.Canvas.Clear: does not write row 0 when the canvas has no rows. As written the source then writes past an empty buffer (see Findings).
- Inputs.Keyboard.Reset: the `u32` counters are unbounded; wrap-around after 2³² frames held down is not modelled.
- Inputs.Mouse.PosDelta: the differences are exact, not `i32`.
- Inputs.Mouse.SetBut: `1 << but` for `but > 7` is the debug-build overflow panic. A release build masks the shift amount, so `set_but(8, true)` would set bit 0. The window only passes button indices 0..7.
- Glyphs.StrWidth: the sum is an unbounded `nat`. The source's `u32` `sum()` would overflow for a wide enough string.
- Audio.SoundReader.Seek: `i64` overflow is the debug-build panic. A release build would wrap instead.
- Renderers.Renderer.CountSimilar: requires start < len. The source would panic on the index otherwise, and its only caller never passes such a start.
- Renderers.Renderer.DrawRuns: the `pos as u32 * 6` vertex offsets are exact.
- Sprites.SpriteBatch.Draw: the `u32` batch offsets and `first*6` are exact.
- Sprites.MetricsVertices: the origin is negated exactly. In the source `-sm.ox as f32` negates the `i32` first, so `ox` or `oy` equal to `i32::MIN` panics in a debug build (and stays `i32::MIN` in a release build); `Sprites.WriteSprite` and `Sprites.SpriteBatch.Draw` inherit this.
- Field-read accessors carry no contract of their own; each returns its field unchanged:
  - `Canvas::into_data`, `width`, `height` and `data`; the `Glyph` accessors and `Font::height`;
  - `Inputs.Mouse.Pos`, `PosOld`, `Buts` and `ButsOld` (`input.rs:46-47`, `66-67`);
  - `Sprites.Sprite.Pos`, `Size`, `Color`, `Scale`, `Angle`, `Origin`, `Texture` and `Visible` (`sprite.rs:183-190`);
  - `TileMaps.MapSize`, `TileSize` and `MapTexture` (`tilemap.rs:50-63`), whose values are stated by `TileMaps.NewTileMapSizes`.
- Inputs.Mouse.PosDelta and Inputs.Mouse.Moved (`input.rs:48-49`) have no contract of their own; `Inputs.MovedDelta` relates them.

## Findings

| source | as written | input that shows it | evidently intended | confidence | as-written member | corrected member |
|---|---|---|---|---|---|---|
| jmge/src/audio.rs:137-141 | `read` shortens `want` to the bytes left but copies with `buf.copy_from_slice`, which requires the whole buffer's length, so it panics near the end of the data | 3 bytes, position 1, a 4-byte buffer | copy `want` bytes into `buf[..want]` and return `want` (a short read, as `std::io::Read` allows) | not executed | Audio.ReadPanicExample | Audio.SoundReader.ReadFixed |
| jmge/src/canvas.rs:121-137 | `clear` fills row 0 (`w` pixels) without checking the height, so it writes past the buffer when h = 0 and w > 0 (reachable through `from_raw(w, 0, vec![])`) | a 5×0 canvas | fill only the rows that exist | not executed | Canvases.ClearEmptyRowsExample | Canvases.Canvas.Clear |
