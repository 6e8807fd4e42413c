/**
  The FastAPI application: two typed request records, the POST handlers for
  `/add` and `/reverse`, and the constant manifest served at `/mcp/manifest`.
 */
module App {
  import opened Values
  import opened Sequences

  /** Body of a POST to `/add`: two unbounded Python integers. */
  datatype AddRequest = AddRequest(a: int, b: int)

  /** Body of a POST to `/reverse`: one Python string, as a sequence of code points. */
  datatype ReverseRequest = ReverseRequest(text: string)

  /** What `/add` returns: a single `result` field. */
  datatype AddResponse = AddResponse(result: int)
  {
    function ToDict(): Dict
    {
      WrapResult(Int(result))
    }
  }

  /** What `/reverse` returns: a single `result` field. */
  datatype ReverseResponse = ReverseResponse(result: string)
  {
    function ToDict(): Dict
    {
      WrapResult(Str(result))
    }
  }

  /** The record returned by `/mcp/manifest`. */
  datatype Manifest = Manifest(name: string, description: string, endpoints: seq<string>)
  {
    function ToDict(): Dict
    {
      map["name" := Str(name),
          "description" := Str(description),
          "endpoints" := List(seq(|endpoints|, i requires 0 <= i < |endpoints| => Str(endpoints[i])))]
    }
  }

  /** The two POST routes, in the order the application declares them. */
  datatype Endpoint = AddEndpoint | ReverseEndpoint
  {
    function Path(): string
    {
      match this
      case AddEndpoint => "/add"
      case ReverseEndpoint => "/reverse"
    }
  }

  const Endpoints: seq<Endpoint> := [AddEndpoint, ReverseEndpoint]

  function GetManifest(): Manifest
  {
    Manifest("Local MCP Server",
             "Demo endpoints for addition and string reversal",
             ["/add", "/reverse"])
  }

  function AddNumbers(req: AddRequest): AddResponse
  {
    AddResponse(req.a + req.b)
  }

  function ReverseText(req: ReverseRequest): (resp: ReverseResponse)
    ensures |resp.result| == |req.text|
    ensures forall i :: 0 <= i < |req.text| ==> resp.result[i] == req.text[|req.text| - 1 - i]
  {
    ReverseIndex(req.text);
    ReverseResponse(Reverse(req.text))
  }

  // ---------------------------------------------------------------------
  // Addition

  /** The sum is exact: subtracting either operand recovers the other. */
  lemma AddNumbersExact(req: AddRequest)
    ensures AddNumbers(req).result - req.b == req.a
    ensures AddNumbers(req).result - req.a == req.b
  {
  }

  /** Swapping the operands does not change the result. */
  lemma AddNumbersCommutative(a: int, b: int)
    ensures AddNumbers(AddRequest(a, b)) == AddNumbers(AddRequest(b, a))
  {
  }

  /** No wrap-around: adding a positive number always gives a larger result. */
  lemma AddNumbersDoesNotWrap(a: int, b: int)
    requires b > 0
    ensures AddNumbers(AddRequest(a, b)).result > a
  {
  }

  /** The body of `/add` is the dict `{"result": a + b}` and nothing else. */
  lemma AddBodyIsSingleResult(req: AddRequest, d: Dict)
    ensures d == AddNumbers(req).ToDict() <==>
              d.Keys == {"result"} && d["result"] == Int(req.a + req.b)
  {
    WrapResultExactly(Int(req.a + req.b), d);
  }

  // ---------------------------------------------------------------------
  // Reversal

  /** Reversing the reversed text gives back the original text. */
  lemma ReverseTextTwice(req: ReverseRequest)
    ensures ReverseText(ReverseRequest(ReverseText(req).result)).result == req.text
  {
    ReverseInvolution(req.text);
  }

  lemma ReverseTextEmpty()
    ensures ReverseText(ReverseRequest("")).result == ""
  {
    ReverseEmpty<char>();
  }

  /** The reversal of `s + t` is the reversal of `t` followed by that of `s`. */
  lemma ReverseTextConcat(s: string, t: string)
    ensures ReverseText(ReverseRequest(s + t)).result ==
            ReverseText(ReverseRequest(t)).result + ReverseText(ReverseRequest(s)).result
  {
    ReverseConcat(s, t);
  }

  /** The body of `/reverse` is the dict `{"result": reversed text}` and nothing else. */
  lemma ReverseBodyIsSingleResult(req: ReverseRequest, d: Dict)
    ensures d == ReverseText(req).ToDict() <==>
              d.Keys == {"result"} && d["result"] == Str(Reverse(req.text))
  {
    WrapResultExactly(Str(Reverse(req.text)), d);
  }

  // ---------------------------------------------------------------------
  // Manifest

  /**
    The manifest is named "Local MCP Server" and lists the path of every
    POST route once, in declaration order, and no other path.
   */
  lemma ManifestListsServedEndpoints()
    ensures GetManifest().name == "Local MCP Server"
    ensures |GetManifest().endpoints| == |Endpoints|
    ensures forall i :: 0 <= i < |Endpoints| ==> GetManifest().endpoints[i] == Endpoints[i].Path()
    ensures forall e: Endpoint :: e.Path() in GetManifest().endpoints
    ensures forall i, j :: 0 <= i < j < |GetManifest().endpoints| ==>
              GetManifest().endpoints[i] != GetManifest().endpoints[j]
  {
  }

  /** The manifest dict has exactly the keys name, description and endpoints. */
  lemma ManifestDictFields()
    ensures GetManifest().ToDict().Keys == {"name", "description", "endpoints"}
    ensures GetManifest().ToDict()["endpoints"] == List([Str("/add"), Str("/reverse")])
  {
  }
}
