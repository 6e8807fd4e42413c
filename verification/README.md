# mcp-server: addition, reversal and manifest endpoints

A Dafny model of `app/main.py`, a small FastAPI application. It serves three
endpoints:

- `GET /mcp/manifest` returns a fixed record. The record holds the server's name, a description and the list of POST paths.
- `POST /add` takes an `AddRequest` with two integers `a` and `b`. It returns `{"result": a + b}`.
- `POST /reverse` takes a `ReverseRequest` with one string `text`. It returns `{"result": text[::-1]}`.

Modules:

- `Sequences` (`sequences.dfy`) defines `Reverse` and proves its laws. It also holds `ReverseBySlice`, a loop that visits indices in the order a step -1 slice does.
- `Values` (`values.dfy`) models the Python values a handler returns: ints, strings, lists, and dicts keyed by strings.
- `App` (`app.dfy`) holds the request and response records, the three handlers, and the lemmas about them.

Python `int` is unbounded, so it is Dafny `int`. A Python `str` is a sequence of
code points, so it is `seq<char>` (a Dafny `char` is a Unicode scalar value).
Each response is a datatype with one `result` field. Its `ToDict` gives the
dict the handler returns.

## Model

| member | source | states |
|---|---|---|
| `Sequences.Reverse` | app/main.py:27 | the reversal has the input's length |
| `Sequences.ReverseIndex` | app/main.py:27 | position i of the reversal holds the input's element at position length-1-i |
| `Sequences.ReverseCharacterised` | app/main.py:27 | a sequence equals the reversal of s if and only if it has s's length and mirrors s index by index |
| `Sequences.ReverseEmpty` | app/main.py:27 | the reversal of the empty sequence is empty |
| `Sequences.ReverseInvolution` | app/main.py:27 | reversing twice gives back the original sequence |
| `Sequences.ReverseConcat` | app/main.py:27 | the reversal of s + t is the reversal of t followed by the reversal of s |
| `Sequences.ReverseBySlice` | app/main.py:27 | taking elements from the last index down to index 0, as a step -1 slice with default bounds does, yields exactly the reversal |
| `Values.WrapResultExactly` | app/main.py:21-27 | a dict equals `{"result": v}` if and only if "result" is its only key and maps to v |
| `App.ReverseText` | app/main.py:25-27 | the `/reverse` result has the text's length and holds the text's code points in mirrored order |
| `App.ReverseTextTwice` | app/main.py:25-27 | feeding the `/reverse` result back into `/reverse` returns the original text |
| `App.ReverseTextEmpty` | app/main.py:25-27 | `/reverse` of the empty string returns the empty string |
| `App.ReverseTextConcat` | app/main.py:25-27 | `/reverse` of s + t is `/reverse` of t followed by `/reverse` of s |
| `App.ReverseBodyIsSingleResult` | app/main.py:27 | the `/reverse` body is a dict with the single key "result" holding the reversed text, and nothing else |
| `App.AddNumbersExact` | app/main.py:6-8 | the `/add` result is the exact unbounded sum: subtracting either operand gives back the other |
| `App.AddNumbersCommutative` | app/main.py:23 | swapping a and b gives the same `/add` response |
| `App.AddNumbersDoesNotWrap` | app/main.py:21-23 | adding a positive b to any a gives a result larger than a, so the sum never wraps around |
| `App.AddBodyIsSingleResult` | app/main.py:23 | the `/add` body is a dict with the single key "result" holding a + b, and nothing else |
| `App.ManifestListsServedEndpoints` | app/main.py:13-27 | the manifest is named "Local MCP Server"; its endpoint list holds the paths of the POST routes once each, in declaration order (`/add`, then `/reverse`), and no other path |
| `App.ManifestDictFields` | app/main.py:15-19 | the manifest dict has exactly the keys name, description and endpoints, and endpoints is the list `["/add", "/reverse"]` |

## Left out

- FastAPI is not modelled: the app object, the route decorators, and HTTP status handling are framework code. Only the two POST paths are kept, in `Endpoint.Path`; the `/mcp/manifest` path is not.
- Pydantic request validation and coercion are not modelled. For example, the model does not say whether `"3"` or `True` is accepted as an `int`. Requests arrive already typed.
- JSON serialisation of the returned dicts is not modelled. It belongs to the framework.
- A `Dict` is an unordered map, so the manifest's key order (name, description, endpoints), which shows in the JSON body, is not modelled.
- `App.ReverseText` covers only strings made of Unicode scalar values. A Python `str` may also hold lone surrogate code points, which a Dafny `char` cannot represent.
