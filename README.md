# pixels.py — a Dafny model of the canvas reconciliation bot

The bot keeps a 160 x 90 shared pixel canvas showing a target pattern. The
pattern is a list of rows of colour strings, placed on the canvas at an
offset. Each pass of its `queuer` loop does four things:

- it fetches the canvas as raw RGB bytes;
- it formats each covered canvas pixel as a six-digit lower-case hex string;
- it queues a `Pixel` for every pattern cell whose string differs;
- it shuffles the queue and installs it.

The worker loops then pop pixels from the end of the queue. Each popped pixel
is sent as a `{x, y, rgb}` body with a bearer-token header. After each write,
a worker sleeps `requests-reset` seconds when `requests-remaining` is zero or
less.

Module layout (one module per component of `pixels.py`):

- `wrappers.dfy`, module `Wrappers`: `Option` and `Result`.
- `canvas.dfy`, module `Canvas`: bytes, RGB triples, the canvas size, the
  decoding that `Image.frombytes` does, and `getpixel` as a byte-buffer
  lookup. It also defines the exceptions the bot can raise (`Fault`).
- `hex.dfy`, module `Hex`: the `'%02x%02x%02x'` formatting and its inverse
  parser.
- `pixel.dfy`, module `PixelRecord`: the `Pixel` class and `to_dict`.
- `diff.dfy`, module `DiffEngine`: the diff loop of `queuer` and
  `random.shuffle`. The specification of the diff is the recursive
  `RowDiff`/`PatternDiff` walk. It is stated over a colour lookup. `CanvasView`
  is the lookup that the decoded image gives.
- `bot.dfy`, module `Bot`: the `JavaScriptator2000` class. Its queue and event
  flag are fields. It has `get_auth`, `random_auth`, one pass of `queuer`, the
  pop, one pass of `worker`, and the cooldown rule.

Inputs that come from outside the program are parameters:

- the bytes returned by `get_pixels`;
- the two integer values of the rate-limit headers.

Randomness is a nondeterministic choice (`:|`). This covers the index that
`random.choice` picks and each swap position of `random.shuffle`.

The code does not do the following, which a reader might expect of such a
bot, and the model does not do them either:

- There is no transparency skip. Every pattern cell takes part.
- Only `requests-remaining` and `requests-reset` are read. There is no
  cooldown-violation or upstream-throttle signal, and no precedence among
  signals.
- The pop takes the last element of a shuffled list, not an element at a
  random position.
- There is no startup check of the pattern against the canvas size. A cell off
  the canvas makes `getpixel` raise during the pass.
- Colours are strings compared case-sensitively, not 24-bit values.

## Model

| member | source | states |
|---|---|---|
| `Canvas.Decode` | pixels.py:52 | `Image.frombytes` succeeds exactly when the buffer holds at least 160*90*3 bytes, and the image is the prefix that fills it; otherwise "not enough image data" |
| `Canvas.PixelOffsetInverse` | pixels.py:52 | the row-major byte offset of an on-canvas pixel lies inside the buffer and gives back its coordinate |
| `Canvas.ColorAt` | pixels.py:59 | `getpixel((x, y))` is defined only on the canvas, x < 160 and y < 90 (off it getpixel raises); it reads bytes 3·(160·y+x), +1 and +2 as R, G, B, a window inside the buffer whose offset gives back (x, y) |
| `Hex.Format` | pixels.py:60 | the canvas colour string has exactly 6 characters, all lower-case hex digits |
| `Hex.FormatRoundTrip` | pixels.py:60 | parsing the formatted string gives back the R, G, B triple |
| `Hex.ParseRoundTrip` | pixels.py:60 | every string the lower-case parser accepts is the formatting of the triple it yields |
| `Hex.FormatInjective` | pixels.py:60 | distinct triples format to distinct strings |
| `Hex.FormatEqualsIff` | pixels.py:60-62 | a pattern string equals a canvas colour's string if and only if it parses, as lower-case hex, to that triple |
| `Hex.UppercaseNeverEqual` | pixels.py:62 | a pattern string holding an upper-case hex letter never equals any canvas colour's string |
| `Hex.PixelStringsAt` | pixels.py:52-60 | entry k of the per-pixel strings of a buffer is the formatting of bytes 3k, 3k+1, 3k+2 |
| `PixelRecord.ToDict` | pixels.py:24-25 | the set_pixel body has exactly the keys x, y and rgb |
| `PixelRecord.DictRoundTrip` | pixels.py:24-25 | reading the body back gives the same pixel: x, y and colour |
| `PixelRecord.DictOfFromDict` | pixels.py:24-25 | every body read back as a pixel is exactly that pixel's body |
| `DiffEngine.CanvasViewAt` | pixels.py:59-60 | the colour lookup of a decoded image at an on-canvas pixel is the hex string of getpixel there |
| `DiffEngine.CanvasColor` | pixels.py:59-60 | getpixel followed by the hex formatting yields the lookup's string for that pixel |
| `DiffEngine.CanvasDiffers` | pixels.py:59-62 | a cell counts as differing exactly when the hex string of getpixel at its shifted coordinate is not the cell's string, equivalently when the cell's string does not parse to that triple |
| `DiffEngine.DiffMembership` | pixels.py:56-63 | every queued pixel comes from a cell (row, col) with x = col + offset.0, y = row + offset.1 and the cell's colour, and that cell differs; a cell is queued if and only if it differs |
| `DiffEngine.DiffShape` | pixels.py:54-63 | the built list is in row-major order of the pattern, has no duplicate coordinates, and is no longer than the number of pattern cells |
| `DiffEngine.DiffEmptyIff` | pixels.py:62-63 | the built list is empty if and only if every cell already shows its string |
| `DiffEngine.DiffRow` | pixels.py:57-63 | the inner loop fails with IndexError exactly when a cell of the row is off the canvas, and otherwise returns exactly the row's specified diff |
| `DiffEngine.BuildDiff` | pixels.py:54-63 | the nested loops fail with IndexError exactly when some cell is off the canvas, and otherwise return exactly the specified diff of the decoded image |
| `DiffEngine.Shuffle` | pixels.py:66 | the shuffled list is a permutation of its input, with the same multiset, and it keeps coordinates distinct |
| `DiffEngine.ReorderedDiff` | pixels.py:66-67 | any permutation of the diff holds only pattern cells, and is empty exactly when the canvas shows the whole pattern |
| `Bot.Cooldown` | pixels.py:91-98 | a sleep is taken if and only if requests-remaining <= 0, and it lasts requests-reset seconds |
| `Bot.JavaScriptator2000.constructor` | pixels.py:36-44 | keeps tokens, pattern and offset; starts with an empty queue and a clear event |
| `Bot.JavaScriptator2000.GetAuth` | pixels.py:101-103 | the header map has only the Authorization key, and its value is "Bearer " followed by the token |
| `Bot.AuthRoundTrip` | pixels.py:102-103 | the token is recovered from the header |
| `Bot.AuthInjective` | pixels.py:102-103 | distinct tokens give distinct headers |
| `Bot.JavaScriptator2000.RandomAuth` | pixels.py:106-107 | fails, as random.choice does, exactly when there are no tokens; otherwise returns the header of some listed token |
| `Bot.JavaScriptator2000.RefreshQueue` | pixels.py:50-70 | the three error paths, each leaving queue and event unchanged: no tokens, a short buffer, a cell off the canvas; on success, the header of some token is used, the queue is a permutation of the diff of the decoded image, it is empty exactly when the canvas already shows the pattern, and the event is set exactly when it was set before or the new queue is non-empty; every queued pixel is a pattern cell and no coordinate is queued twice (Valid) |
| `Bot.JavaScriptator2000.Pop` | pixels.py:83 | returns the last queued pixel and leaves exactly the prefix before it |
| `Bot.JavaScriptator2000.WorkerIteration` | pixels.py:75-98 | with the event clear, the worker is blocked and nothing changes; with an empty queue, the event is cleared (lines 77-80); otherwise the last pixel is popped and sent as its dict with the worker's header, and the sleep is the cooldown rule's |

## Left out

- HTTP: `aiohttp` requests and response objects (lines 51, 85-92). The
  `get_pixels` bytes and the integer values of the two rate-limit headers are
  parameters. A missing or non-integer header, which makes `int()` or the
  header lookup raise, is not modelled.
- asyncio:
  - the `Lock`;
  - waiting on the `Event`, which is modelled only as its flag;
  - the `asyncio.sleep` calls themselves, where the model returns the
    requested duration;
  - task creation in `run`;
  - the interleaving of the queuer and the workers;
  - the `while True` loops, where the model is one pass per call
    (lines 42-43, 47-50, 69-82, 90, 110-114).
- An exception inside `queuer` or `worker` ends that task. The model returns a
  `Fault` and leaves the state as it was. It does not model the task stopping.
- Randomness: `random.choice` and `random.shuffle` are nondeterministic
  choices. Uniformity is not modelled.
- PIL: only `frombytes` in RGB mode and `getpixel` are modelled, as a
  row-major byte buffer. A buffer longer than the image is taken to use its
  prefix. Negative `getpixel` coordinates, which Pillow wraps, are outside the
  model: offsets are natural numbers.
- Startup and output are not modelled: `jslogo.json` loading, `sys.argv`, the
  Windows event-loop policy, `main`, `Pixel.__str__`, and every `print` and
  `strftime` log line (lines 13-14, 28-29, 117-129).
- `Bot.JavaScriptator2000.Pop`: requires a non-empty queue, where an empty
  `list.pop()` raises IndexError. `WorkerIteration` treats the emptiness check
  at line 77 and the pop at line 83 as one atomic step, but the source does
  not guarantee this. Between them the worker waits on
  `request_lock.acquire()` (line 82). Meanwhile the queuer, holding the lock
  (line 50), can install an empty queue (line 67) once the canvas matches. The
  pop then raises while the lock is held, because that lock was taken with a
  bare `acquire()` and is never released. Every other task then blocks. This
  interleaving is outside the model.
