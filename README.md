# Vehicle light-status codec

This project models the codec that the vehicle on-board unit uses to answer
the question "what is the exterior-light status of car `roadrunner`?". The
same answer is served over JSON-RPC, REST and CoAP. The model covers these
parts:

- the table `bitToExteriorLightMap`, which maps the codes 0–7 to eight status
  names (`ObuOperations.ExteriorLights`);
- the reverse lookup from a name to its code. The source writes it as a
  `filter` over the table followed by `[0]` (`KeyFilter.FilterKeys`,
  `ObuOperations.LookupCode`);
- `returnYANGOutput`, the logical `fetch/output/carStatus` JSON envelope
  (`ObuOperations.YangOutput`);
- `returnCCOutput`, the CORECONF encoder. It overwrites the name leaf
  `[60001][4][1][2]` and the code leaf `[60001][4][1][1]` of a pre-compiled
  stencil in place, then returns that same stencil. It is modelled twice:
  `ObuOperations.Encode` is the value it leaves behind, and
  `ObuOperations.Stencil.ReturnCCOutput` is the in-place update on a class.
- the CoAP client's decoding of the response: it reads the code leaf and
  looks it up in the same table (`ObuOperations.Decode`);
- `lightStatus`, which reads the table at an index in `[0, len - 1]`
  (`ObuOperations.LightStatus`).

The stencil is the decoded CBOR payload, a tree of integer-keyed maps whose
leaves are integers or text strings (RFC 9254 SID-keyed maps).
`Coreconf.At` models Python's chained read `x[k1]...[kn]`.
`Coreconf.Assign` models the chained item assignment
`x[k1]...[kn-1][kn] = v`. Python's `KeyError`, `IndexError` and `TypeError`
become the `Failure` side of a `Result`, never a precondition.

The lookup comes first in `returnCCOutput` (line 34), so an unknown status
fails before anything is written. A stencil without the `carStatus` map fails
at the first write (line 36), so again nothing is written. Once the first
write succeeds, the second one (line 37) cannot fail. So the encoder writes
both leaves or neither.

The encoder does not copy its stencil. Every request shares the
module-level `stencilPayload`, and `returnCCOutput` overwrites its two leaves
in place and returns that same object. The model does the same:
`ReturnCCOutput` modifies its `Stencil` and returns `Success(this)`.

## Model

| member | source | states |
|---|---|---|
| ObuOperations.TableIsBijection | obu_operations.py:8-15 | the table's keys are exactly 0..7, it has 8 entries, no two codes share a name, and iteration visits each key once |
| KeyFilter.FilterKeys | obu_operations.py:34 | the filter keeps exactly the keys whose name is the status; it is empty iff no key matches; it repeats no key when the keys do not repeat |
| KeyFilter.FilterAtMostOne | obu_operations.py:34 | over an injective table and non-repeating keys, the filter finds at most one key |
| ObuOperations.AtMostOneMatch | obu_operations.py:34 | for every status, the filter over `bitToExteriorLightMap` finds at most one key, so `[0]` picks the only one |
| ObuOperations.LookupCode | obu_operations.py:34 | a code is found iff the status is one of the table's names, and it is the unique `k` with `table[k] == status`; otherwise the lookup fails (the `IndexError` of `[0]`) |
| ObuOperations.LightStatus | obu_operations.py:43-49 | an index in `[0, len - 1]` always yields a name of the table, and that name looks up to the same index |
| ObuOperations.YangOutput | obu_operations.py:18-30 | the envelope has exactly the members `fetch`, `output`, `carStatus`, `name`, `exteriorLight`; read back, it gives `name = "roadrunner"` and `exteriorLight = status` |
| ObuOperations.EnvelopeIsYangOutput | obu_operations.py:18-30 | conversely, any envelope of that shape that names the car and carries a status is exactly `returnYANGOutput` of that status |
| Coreconf.AtLast | clientcoap.py:23 | the chained read `output[60001][4][1][1]` (`Coreconf.At`) reaches a node exactly when the path up to its last key reaches a map holding that key, and the node is that entry; a missing key or a step into a non-map anywhere on the path gives `None` |
| Coreconf.Assign | obu_operations.py:36-37 | a chained item assignment succeeds iff the path up to the last key leads to a map; when it succeeds, reading the path back gives the written value |
| Coreconf.AssignFrame | obu_operations.py:36-37 | an assignment leaves every unrelated path unchanged; paths below the target read inside the new value; every map on the way stays a map |
| Coreconf.AssignParent | obu_operations.py:36-37 | the map holding the target is the old map with just the target key set |
| Coreconf.AssignOverwrite | obu_operations.py:36-37 | two assignments to the same path leave only the second value |
| Coreconf.AssignCommute | obu_operations.py:36-37 | assignments to unrelated paths succeed in either order and build the same tree |
| ObuOperations.Encode | obu_operations.py:32-39 | an unknown status fails with `UnknownStatus` whatever the stencil is; success happens iff the status is in the table and the stencil has the `carStatus` map; on success the name leaf holds "roadrunner" and the code leaf holds the unique code of the status |
| ObuOperations.Decode | clientcoap.py:23-24 | decoding fails with `MissingCode` when the code leaf is absent; it succeeds iff the leaf is an integer key of the table, and then it yields the name of that code: the reverse lookup of the result gives back the code that was read |
| ObuOperations.RoundTrip | obu_operations.py:34-37 | decoding what the encoder wrote gives back the encoded status, whatever the stencil held before |
| ObuOperations.EncodeFrame | obu_operations.py:36-37 | the encoder changes only the two leaves: every path unrelated to them reads as before, and the `carStatus` map is the old one with only keys 2 and 1 set |
| ObuOperations.EncodeLastWriteWins | obu_operations.py:36-37 | encoding over an already encoded stencil gives the same result as encoding the original one, so nothing of the first status leaks through |
| ObuOperations.EncodeIdempotent | obu_operations.py:36-37 | encoding the same status twice is the same as encoding it once |
| ObuOperations.TemplateShape | servcoap.py:11-13 | the stencil compiled from `returnYANGOutput(-1)` has the `carStatus` map, and its placeholder code -1 does not decode to any status |
| ObuOperations.TemplateServesEveryStatus | servcoap.py:11-21 | the compiled stencil accepts every status of the table, and the client decodes each one back |
| ObuOperations.TransportsAgree | servcoap.py:19-22 | for every status the server can pick, the status the CoAP client decodes equals the `exteriorLight` of the REST envelope |
| ObuOperations.Stencil.ReturnCCOutput | obu_operations.py:32-39 | on success the stencil now holds `Encode` of its old value, and the method returns the same object; on failure the stencil is unchanged and the error is `Encode`'s; a successful call decodes back to the status |
| ObuOperations.Stencil.constructor | servcoap.py:11-13 | the shared stencil starts as the compiled payload it is given |

## Left out

- The randomness and the delays: `random.randint` in `lightStatus` becomes the `index` parameter, limited to `[0, len - 1]`. `shortTask` and `longTask` are `time.sleep` followed by `lightStatus`, so they add nothing beyond `LightStatus`.
- CBOR byte encoding and decoding (`cbor2`), and the SID compilation by `pycoreconf`. These are library calls. The model works on the decoded tree. `Template` is the assumed result of compiling `returnYANGOutput(-1)`: keys 60001, 4 and 1 lead to a map holding `1: -1` and `2: "roadrunner"`.
- Decoded values other than integers, text strings and integer-keyed maps: arrays, floats, booleans and byte strings are not modelled. In Python, a float `1.0` or a boolean `True` in the code leaf would also find a table entry.
- `KeyError`, `TypeError` and `IndexError` from a malformed stencil are collapsed into `PathError` (`MissingKey` or `NotAMap`). When a step meets a text string, Python may index into it before failing. The model fails at that step instead, and the outcome is a failure either way.
- Coreconf.Assign: the nested dictionaries are values inside the one `Stencil` object. Aliasing between inner dictionaries is not modelled. `cbor2.loads` builds a fresh tree, so the source has no such aliasing.
- Concurrency: the CoAP server shares `stencilPayload` across requests. `returnCCOutput` runs without an `await`, so on asyncio's single thread its two writes are never interleaved. The model does not capture threads.
- The network clients and servers: `clientcoap.py` apart from lines 23-24, `clientrpc.py`, `servrestful.py`, the aiocoap resource in `servcoap.py` (its payload comparison and content format 42), and the Locust load harness in `locustfile.py` (timing, sessions, the background event-loop bridge, and reporting). These are I/O or library plumbing around the codec.
- `FETCH_SID`: it only names the CoAP resource path. The stencil uses the integer SID 60001 directly, so the model has no constant for it.
