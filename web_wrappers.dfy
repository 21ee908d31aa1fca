/**
 * Request and response wrappers of circuits/web/wrappers.py: the `Host`
 * default, `HTTPStatus` and its comparisons with integers, the `Body` and
 * `Status` descriptors that normalise what is assigned to a response, the
 * base URL and XMLHttpRequest flag a request derives from its headers, and
 * `Response.prepare`, which decides the framing of the response: its
 * Content-Type and Content-Length, whether it is sent chunked, whether the
 * connection closes, and its Connection header (section 3.3 and section 6
 * of RFC 7230).
 */
module WebWrappers {
  import opened Results
  import opened Strings

  // ---------------------------------------------------------------------
  // Headers: an ordered list of (name, value) pairs.

  type Headers = seq<(string, string)>

  /** The first value stored under `k`, if any. */
  function Find(h: Headers, k: string): Option<string>
  {
    if h == [] then None
    else if h[0].0 == k then Some(h[0].1)
    else Find(h[1..], k)
  }

  predicate Has(h: Headers, k: string)
  {
    Find(h, k).Some?
  }

  /** headers.get(k, default). */
  function Get(h: Headers, k: string, default: string): string
  {
    match Find(h, k)
    case Some(v) => v
    case None => default
  }

  /** headers.add_header(k, v): appends, keeping earlier values. */
  function AddHeader(h: Headers, k: string, v: string): Headers
  {
    h + [(k, v)]
  }

  /** headers.setdefault(k, v): appends only when `k` is absent. */
  function SetDefault(h: Headers, k: string, v: string): Headers
  {
    if Has(h, k) then h else AddHeader(h, k, v)
  }

  /** Every pair not stored under `k`, in order. */
  function Remove(h: Headers, k: string): Headers
  {
    if h == [] then []
    else if h[0].0 == k then Remove(h[1..], k)
    else [h[0]] + Remove(h[1..], k)
  }

  /** headers[k] = v: drops every value under `k`, then appends the new one. */
  function SetItem(h: Headers, k: string, v: string): Headers
  {
    AddHeader(Remove(h, k), k, v)
  }

  lemma {:induction false} FindAppend(h: Headers, k: string, p: (string, string))
    ensures Find(h + [p], k) ==
      if Find(h, k).Some? then Find(h, k) else if p.0 == k then Some(p.1) else None
  {
    if h != [] {
      assert (h + [p])[1..] == h[1..] + [p];
      FindAppend(h[1..], k, p);
    }
  }

  lemma {:induction false} FindRemove(h: Headers, k: string, j: string)
    ensures Find(Remove(h, k), j) == if j == k then None else Find(h, j)
  {
    if h != [] {
      FindRemove(h[1..], k, j);
    }
  }

  /** The header algebra `prepare` relies on: what each write leaves under each name. */
  lemma FindAfterWrites(h: Headers, k: string, v: string, j: string)
    ensures Find(AddHeader(h, k, v), j) ==
      if Find(h, j).Some? then Find(h, j) else if j == k then Some(v) else None
    ensures Find(SetDefault(h, k, v), j) ==
      if Find(h, j).Some? then Find(h, j) else if j == k then Some(v) else None
    ensures Find(SetItem(h, k, v), j) == if j == k then Some(v) else Find(h, j)
  {
    FindAppend(h, j, (k, v));
    FindAppend(Remove(h, k), j, (k, v));
    FindRemove(h, k, j);
  }

  // ---------------------------------------------------------------------
  // Host

  datatype Host = Host(ip: string, port: int, name: string)

  /** Host(ip, port, name=None) (wrappers.py:52-57): the name defaults to the IP address. */
  function NewHost(ip: string, port: int, name: Option<string>): (h: Host)
    ensures h.ip == ip && h.port == port
    ensures name.Some? ==> h.name == name.value
    ensures name.None? ==> h.name == ip
  {
    Host(ip, port, if name.Some? then name.value else ip)
  }

  // ---------------------------------------------------------------------
  // HTTPStatus

  datatype WebError =
    | KeyError        // a status code missing from the reason table
    | AttributeError  // an attribute read through a missing server

  datatype HTTPStatus = HTTPStatus(status: int, reason: string)

  /**
   * HTTPStatus(status, reason) (wrappers.py:67-69): an empty or missing reason
   * is looked up in the table of standard reasons, which raises for an
   * unknown code.
   */
  function NewStatus(codes: map<int, string>, status: int, reason: Option<string>): (r: Result<HTTPStatus, WebError>)
    ensures reason.Some? && reason.value != "" ==> r == Ok(HTTPStatus(status, reason.value))
    ensures (reason.None? || reason.value == "") ==>
      (r.Ok? <==> status in codes) &&
      (r.Ok? ==> r.value == HTTPStatus(status, codes[status])) &&
      (r.Err? ==> r.error == KeyError)
  {
    if reason.Some? && reason.value != "" then Ok(HTTPStatus(status, reason.value))
    else if status in codes then Ok(HTTPStatus(status, codes[status]))
    else Err(KeyError)
  }

  /** int(s). */
  function AsInt(s: HTTPStatus): int
  {
    s.status
  }

  /** s < n for an int n. */
  predicate LessThan(s: HTTPStatus, n: int)
  {
    s.status < n
  }

  /** s > n for an int n. */
  predicate GreaterThan(s: HTTPStatus, n: int)
  {
    s.status > n
  }

  /** s == n for an int n. */
  predicate EqualsInt(s: HTTPStatus, n: int)
  {
    s.status == n
  }

  /**
   * Comparing a status with an int is comparing its code with it: exactly one
   * of <, == and > holds, and each agrees with int(s).
   */
  lemma StatusComparesAsCode(s: HTTPStatus, n: int)
    ensures LessThan(s, n) <==> AsInt(s) < n
    ensures GreaterThan(s, n) <==> AsInt(s) > n
    ensures EqualsInt(s, n) <==> AsInt(s) == n
    ensures LessThan(s, n) || EqualsInt(s, n) || GreaterThan(s, n)
    ensures !(LessThan(s, n) && EqualsInt(s, n)) && !(LessThan(s, n) && GreaterThan(s, n))
    ensures !(EqualsInt(s, n) && GreaterThan(s, n))
  {
  }

  // ---------------------------------------------------------------------
  // Response body and status descriptors

  type byte = bv8

  /** One element of a list body: bytes, or text to be encoded. */
  datatype Chunk = BytesChunk(bytes: seq<byte>) | TextChunk(text: string)

  /** What a response's body holds. */
  datatype Body =
    | BytesBody(bytes: seq<byte>)
    | TextBody(text: string)
    | ListBody(items: seq<Option<Chunk>>)  // None stands for a None element
    | NoBody
    | OtherBody(id: nat)                   // a generator or other iterable of unknown length

  /** A value assigned to `response.body`. */
  datatype BodyValue =
    | AssignBytes(bytes: seq<byte>)
    | AssignText(text: string)
    | AssignList(items: seq<Option<Chunk>>)
    | AssignNone
    | AssignError(rendered: string)  // an HTTPError, which is stored as its text
    | AssignOther(id: nat)
    | AssignSelf                     // the response object itself

  /** Body.__set__ (wrappers.py:217-234): the body stored after assigning `v` to a response whose body is `current`. */
  function StoredBody(current: Body, v: BodyValue): (b: Body)
    ensures v == AssignSelf ==> b == current
    ensures v.AssignBytes? && v.bytes != [] ==> b == ListBody([Some(BytesChunk(v.bytes))])
    ensures v.AssignBytes? && v.bytes == [] ==> b == ListBody([])
    ensures v == AssignNone ==> b == ListBody([])
    ensures v.AssignError? ==> b == ListBody([Some(TextChunk(v.rendered))])
    ensures v.AssignText? ==> b == TextBody(v.text)
    ensures v.AssignList? ==> b == ListBody(v.items)
    ensures v.AssignOther? ==> b == OtherBody(v.id)
  {
    match v
    case AssignSelf => current
    case AssignBytes(bs) => if bs != [] then ListBody([Some(BytesChunk(bs))]) else ListBody([])
    case AssignText(t) => TextBody(t)
    case AssignList(items) => ListBody(items)
    case AssignNone => ListBody([])
    case AssignError(text) => ListBody([Some(TextChunk(text))])
    case AssignOther(id) => OtherBody(id)
  }

  /** Number of bytes of the UTF-8 encoding of one character. */
  function Utf8Width(c: char): nat
  {
    if c as int < 0x80 then 1 else if c as int < 0x800 then 2 else if c as int < 0x10000 then 3 else 4
  }

  /** len(t.encode("utf-8")). */
  function Utf8Length(t: string): (n: nat)
    ensures |t| <= n <= 4 * |t|
  {
    if t == [] then 0 else Utf8Length(t[..|t| - 1]) + Utf8Width(t[|t| - 1])
  }

  function ChunkLength(c: Chunk): nat
  {
    match c
    case BytesChunk(bs) => |bs|
    case TextChunk(t) => Utf8Length(t)
  }

  /** A list of None elements adds nothing. */
  lemma {:induction false} ListLengthOfNones(items: seq<Option<Chunk>>)
    ensures (forall k :: 0 <= k < |items| ==> items[k].None?) ==> ListLength(items) == 0
  {
    if items != [] {
      ListLengthOfNones(items[..|items| - 1]);
    }
  }

  /** The sum over a list body is the sum over its parts, in any split. */
  lemma {:induction false} ListLengthAppend(a: seq<Option<Chunk>>, b: seq<Option<Chunk>>)
    ensures ListLength(a + b) == ListLength(a) + ListLength(b)
  {
    if b == [] {
      assert a + b == a;
    } else {
      assert (a + b)[..|a + b| - 1] == a + b[..|b| - 1];
      ListLengthAppend(a, b[..|b| - 1]);
    }
  }

  /** The summed encoded lengths of the elements that are not None. */
  function ListLength(items: seq<Option<Chunk>>): nat
  {
    if items == [] then 0
    else ListLength(items[..|items| - 1]) + (if items[|items| - 1].Some? then ChunkLength(items[|items| - 1].value) else 0)
  }

  /**
   * The cLength that prepare computes (wrappers.py:323-337); None when the
   * length is not known, which is for a None body and for other iterables.
   */
  function ContentLength(b: Body): (r: Option<nat>)
    ensures r.None? <==> b.NoBody? || b.OtherBody?
    ensures b.BytesBody? ==> r == Some(|b.bytes|)
    ensures b.TextBody? ==> |b.text| <= r.value <= 4 * |b.text|
    ensures b.ListBody? && (forall k :: 0 <= k < |b.items| ==> b.items[k].None?) ==> r == Some(0)
  {
    match b
    case BytesBody(bs) => Some(|bs|)
    case TextBody(t) => Some(Utf8Length(t))
    case ListBody(items) =>
      ListLengthOfNones(items);
      Some(ListLength(items))
    case NoBody => None
    case OtherBody(_) => None
  }

  /**
   * Normalising an assigned value never changes the length prepare announces
   * for it: bytes announce their own length, None announces 0, and the text of
   * an error announces its encoded length.
   */
  lemma StoredBodyKeepsLength(current: Body, v: BodyValue)
    ensures v.AssignBytes? ==> ContentLength(StoredBody(current, v)) == Some(|v.bytes|)
    ensures v == AssignNone ==> ContentLength(StoredBody(current, v)) == Some(0)
    ensures v.AssignError? ==> ContentLength(StoredBody(current, v)) == Some(Utf8Length(v.rendered))
    ensures v.AssignText? ==> ContentLength(StoredBody(current, v)) == Some(Utf8Length(v.text))
    ensures v == AssignSelf ==> ContentLength(StoredBody(current, v)) == ContentLength(current)
  {
    match v {
      case AssignBytes(bs) =>
        if bs != [] {
          var items := [Some(BytesChunk(bs))];
          assert items[..0] == [];
          assert ListLength(items) == |bs|;
        }
      case AssignError(text) =>
        var items := [Some(TextChunk(text))];
        assert items[..0] == [];
        assert ListLength(items) == Utf8Length(text);
      case _ =>
    }
  }

  /** The value assigned to `response.status`: an int, or anything else (stored as is). */
  datatype StatusValue = IntStatus(code: int) | StatusObject(value: HTTPStatus)

  /** Status.__set__ (wrappers.py:246-249): an int is wrapped as HTTPStatus(value). */
  function StoredStatus(codes: map<int, string>, v: StatusValue): (r: Result<HTTPStatus, WebError>)
    ensures v.StatusObject? ==> r == Ok(v.value)
    ensures v.IntStatus? ==> r == NewStatus(codes, v.code, None)
    ensures v.IntStatus? && r.Ok? ==> AsInt(r.value) == v.code && r.value.reason == codes[v.code]
  {
    match v
    case IntStatus(n) => NewStatus(codes, n, None)
    case StatusObject(s) => Ok(s)
  }

  // ---------------------------------------------------------------------
  // Response.prepare

  /** The response state prepare reads and writes besides the body and status. */
  datatype Framing = Framing(headers: Headers, close: bool, chunked: bool)

  /** What prepare reads from the request and the response's construction. */
  datatype Exchange = Exchange(protocol: string, requestMethod: string, hasServer: bool, encoding: string)

  /** Status codes after which no body is sent (section 3.3.3 of RFC 7230). */
  predicate Bodiless(status: HTTPStatus)
  {
    LessThan(status, 200) || status.status in {204, 205, 304}
  }

  /** Step 1 and 2 (wrappers.py:319-340): default Content-Type, then Content-Length when known. */
  function Described(x: Exchange, b: Body, h: Headers): Headers
  {
    var h1 := SetDefault(h, "Content-Type", "text/html; charset=" + x.encoding);
    var cLength := ContentLength(b);
    if cLength.Some? then SetItem(h1, "Content-Length", NatToString(cLength.value)) else h1
  }

  /** The guard under which step 3 switches to chunked transfer coding (wrappers.py:349-357). */
  predicate Chunks(x: Exchange, status: HTTPStatus, cLength: Option<nat>, h: Headers)
  {
    !EqualsInt(status, 413) && !Has(h, "Content-Length") && !Bodiless(status) &&
    x.protocol == "HTTP/1.1" && x.requestMethod != "HEAD" && x.hasServer && cLength != Some(0)
  }

  /** Step 3 (wrappers.py:345-360): how the end of the body is marked. */
  function Delimited(x: Exchange, status: HTTPStatus, cLength: Option<nat>, f: Framing): Framing
  {
    if EqualsInt(status, 413) then f.(close := true)
    else if Has(f.headers, "Content-Length") then f
    else if Bodiless(status) then f
    else if x.protocol == "HTTP/1.1" && x.requestMethod != "HEAD" && x.hasServer && cLength != Some(0) then
      Framing(AddHeader(f.headers, "Transfer-Encoding", "chunked"), f.close, true)
    else f.(close := true)
  }

  /** Step 4 (wrappers.py:362-369): the Connection header a server announces. */
  function Announced(x: Exchange, f: Framing): Framing
  {
    if x.hasServer && !Has(f.headers, "Connection") then
      if x.protocol == "HTTP/1.1" then
        if f.close then f.(headers := AddHeader(f.headers, "Connection", "close")) else f
      else
        if !f.close then f.(headers := AddHeader(f.headers, "Connection", "Keep-Alive")) else f
    else f
  }

  /** Step 5 (wrappers.py:371-372): a chunked Transfer-Encoding header sets the flag. */
  function Flagged(f: Framing): Framing
  {
    if Get(f.headers, "Transfer-Encoding", "") == "chunked" then f.(chunked := true) else f
  }

  /** Response.prepare (wrappers.py:317-372) on the framing state. */
  function Prepared(x: Exchange, status: HTTPStatus, b: Body, f: Framing): Framing
  {
    var f1 := f.(headers := Described(x, b, f.headers));
    Flagged(Announced(x, Delimited(x, status, ContentLength(b), f1)))
  }

  /** Whether prepare itself marks the body as chunked, stated on the headers it was given. */
  predicate StartsChunking(x: Exchange, status: HTTPStatus, b: Body, h: Headers)
  {
    !EqualsInt(status, 413) && ContentLength(b).None? && !Has(h, "Content-Length") &&
    !Bodiless(status) && x.protocol == "HTTP/1.1" && x.requestMethod != "HEAD" && x.hasServer
  }

  /** Whether prepare itself decides that the connection closes after this response. */
  predicate StartsClosing(x: Exchange, status: HTTPStatus, b: Body, h: Headers)
  {
    EqualsInt(status, 413) ||
    (ContentLength(b).None? && !Has(h, "Content-Length") && !Bodiless(status) &&
     !(x.protocol == "HTTP/1.1" && x.requestMethod != "HEAD" && x.hasServer))
  }

  lemma DescribedHeaders(x: Exchange, b: Body, h: Headers, j: string)
    ensures j == "Content-Type" ==>
      Find(Described(x, b, h), j) == if Has(h, j) then Find(h, j) else Some("text/html; charset=" + x.encoding)
    ensures j == "Content-Length" ==>
      Find(Described(x, b, h), j) ==
        if ContentLength(b).Some? then Some(NatToString(ContentLength(b).value)) else Find(h, j)
    ensures j != "Content-Type" && j != "Content-Length" ==> Find(Described(x, b, h), j) == Find(h, j)
  {
    var h1 := SetDefault(h, "Content-Type", "text/html; charset=" + x.encoding);
    FindAfterWrites(h, "Content-Type", "text/html; charset=" + x.encoding, j);
    var cLength := ContentLength(b);
    if cLength.Some? {
      FindAfterWrites(h1, "Content-Length", NatToString(cLength.value), j);
    }
  }

  lemma DelimitedEffect(x: Exchange, status: HTTPStatus, cLength: Option<nat>, f: Framing, j: string)
    ensures Find(Delimited(x, status, cLength, f).headers, j) ==
      if j == "Transfer-Encoding" && Chunks(x, status, cLength, f.headers) && !Has(f.headers, j) then Some("chunked")
      else Find(f.headers, j)
    ensures Delimited(x, status, cLength, f).chunked == (f.chunked || Chunks(x, status, cLength, f.headers))
    ensures Delimited(x, status, cLength, f).close ==
      (f.close || EqualsInt(status, 413) ||
       (!Has(f.headers, "Content-Length") && !Bodiless(status) && !Chunks(x, status, cLength, f.headers)))
  {
    FindAfterWrites(f.headers, "Transfer-Encoding", "chunked", j);
  }

  lemma AnnouncedEffect(x: Exchange, f: Framing, j: string)
    ensures Announced(x, f).close == f.close && Announced(x, f).chunked == f.chunked
    ensures j != "Connection" ==> Find(Announced(x, f).headers, j) == Find(f.headers, j)
    ensures Find(Announced(x, f).headers, "Connection") ==
      if !x.hasServer || Has(f.headers, "Connection") then Find(f.headers, "Connection")
      else if x.protocol == "HTTP/1.1" then (if f.close then Some("close") else None)
      else (if f.close then None else Some("Keep-Alive"))
  {
    var v := if x.protocol == "HTTP/1.1" then "close" else "Keep-Alive";
    FindAfterWrites(f.headers, "Connection", v, j);
    FindAfterWrites(f.headers, "Connection", v, "Connection");
  }

  /**
   * Prepare switches to chunking exactly when the length is unknown and the
   * exchange allows it; the `cLength != 0` test of wrappers.py:356 never decides
   * anything, because a known length has already been written as Content-Length.
   */
  lemma ChunksExactly(x: Exchange, status: HTTPStatus, b: Body, h: Headers)
    ensures Chunks(x, status, ContentLength(b), Described(x, b, h)) <==> StartsChunking(x, status, b, h)
    ensures Has(Described(x, b, h), "Content-Length") <==> ContentLength(b).Some? || Has(h, "Content-Length")
  {
    DescribedHeaders(x, b, h, "Content-Length");
  }

  /**
   * The headers prepare leaves: Content-Type is kept when present and defaulted
   * otherwise; Content-Length is the announced length whenever it is known;
   * Transfer-Encoding is added only when prepare starts chunking, which never
   * happens to a response carrying a Content-Length (section 3.3.2 of RFC 7230).
   */
  lemma PreparedHeaders(x: Exchange, status: HTTPStatus, b: Body, f: Framing)
    ensures Find(Prepared(x, status, b, f).headers, "Content-Type") ==
      if Has(f.headers, "Content-Type") then Find(f.headers, "Content-Type")
      else Some("text/html; charset=" + x.encoding)
    ensures ContentLength(b).Some? ==>
      Find(Prepared(x, status, b, f).headers, "Content-Length") == Some(NatToString(ContentLength(b).value))
    ensures ContentLength(b).None? ==>
      Find(Prepared(x, status, b, f).headers, "Content-Length") == Find(f.headers, "Content-Length")
    ensures Find(Prepared(x, status, b, f).headers, "Transfer-Encoding") ==
      if Has(f.headers, "Transfer-Encoding") then Find(f.headers, "Transfer-Encoding")
      else if StartsChunking(x, status, b, f.headers) then Some("chunked")
      else None
    ensures StartsChunking(x, status, b, f.headers) ==>
      !Has(Prepared(x, status, b, f).headers, "Content-Length")
  {
    ChunksExactly(x, status, b, f.headers);
    PreparedFind(x, status, b, f, "Content-Type");
    PreparedFind(x, status, b, f, "Content-Length");
    PreparedFind(x, status, b, f, "Transfer-Encoding");
    DescribedHeaders(x, b, f.headers, "Content-Type");
    DescribedHeaders(x, b, f.headers, "Content-Length");
    DescribedHeaders(x, b, f.headers, "Transfer-Encoding");
  }

  /** A header other than Connection, after prepare, in terms of the headers prepare was given. */
  lemma PreparedFind(x: Exchange, status: HTTPStatus, b: Body, f: Framing, j: string)
    requires j != "Connection"
    ensures var h := Described(x, b, f.headers);
      Find(Prepared(x, status, b, f).headers, j) ==
        if j == "Transfer-Encoding" && Chunks(x, status, ContentLength(b), h) && !Has(h, j) then Some("chunked")
        else Find(h, j)
  {
    var f1 := f.(headers := Described(x, b, f.headers));
    var f2 := Delimited(x, status, ContentLength(b), f1);
    AnnouncedEffect(x, f2, j);
    DelimitedEffect(x, status, ContentLength(b), f1, j);
    DescribedHeaders(x, b, f.headers, j);
  }

  /**
   * The connection flags prepare leaves: 413 always closes (section 6.5.11 of
   * RFC 7231); a body of unknown length is chunked for an HTTP/1.1 exchange
   * other than HEAD through a server, and otherwise delimited by closing the
   * connection; a final "Transfer-Encoding: chunked" always sets `chunked`.
   */
  lemma PreparedFlags(x: Exchange, status: HTTPStatus, b: Body, f: Framing)
    ensures Prepared(x, status, b, f).close <==> f.close || StartsClosing(x, status, b, f.headers)
    ensures Prepared(x, status, b, f).chunked <==>
      f.chunked || StartsChunking(x, status, b, f.headers) ||
      Find(f.headers, "Transfer-Encoding") == Some("chunked")
    ensures EqualsInt(status, 413) ==> Prepared(x, status, b, f).close
    ensures Get(Prepared(x, status, b, f).headers, "Transfer-Encoding", "") == "chunked" ==>
      Prepared(x, status, b, f).chunked
  {
    var cLength := ContentLength(b);
    var f1 := f.(headers := Described(x, b, f.headers));
    var f2 := Delimited(x, status, cLength, f1);
    var f3 := Announced(x, f2);
    ChunksExactly(x, status, b, f.headers);
    DelimitedEffect(x, status, cLength, f1, "Transfer-Encoding");
    AnnouncedEffect(x, f2, "Transfer-Encoding");
    DescribedHeaders(x, b, f.headers, "Transfer-Encoding");
  }

  /**
   * Every response whose status allows a body leaves prepare with its end
   * marked (section 3.3.3 of RFC 7230): by a Content-Length, by chunking, or by
   * closing the connection.
   */
  lemma BodyEndIsMarked(x: Exchange, status: HTTPStatus, b: Body, f: Framing)
    requires !Bodiless(status)
    ensures var g := Prepared(x, status, b, f);
      Has(g.headers, "Content-Length") || g.chunked || g.close
  {
    PreparedHeaders(x, status, b, f);
    PreparedFlags(x, status, b, f);
  }

  /** Chunking is used only towards an HTTP/1.1 peer, never for HEAD, and only through a server. */
  lemma ChunkingNeedsCapablePeer(x: Exchange, status: HTTPStatus, b: Body, f: Framing)
    requires !f.chunked && !Has(f.headers, "Transfer-Encoding")
    requires Prepared(x, status, b, f).chunked
    ensures x.protocol == "HTTP/1.1" && x.requestMethod != "HEAD" && x.hasServer
    ensures ContentLength(b).None? && !Has(Prepared(x, status, b, f).headers, "Content-Length")
  {
    PreparedHeaders(x, status, b, f);
    PreparedFlags(x, status, b, f);
  }

  /**
   * The Connection header a server adds when none is set (section 6.1 and 6.3
   * of RFC 7230): HTTP/1.1 is persistent by default, so it says "close" exactly
   * when closing; older protocols close by default, so they say "Keep-Alive"
   * exactly when not closing. Without a server, or with a Connection header
   * already set, the header is left alone.
   */
  lemma ConnectionHeader(x: Exchange, status: HTTPStatus, b: Body, f: Framing)
    ensures var g := Prepared(x, status, b, f);
      (x.hasServer && !Has(f.headers, "Connection") ==>
        Find(g.headers, "Connection") ==
          if x.protocol == "HTTP/1.1" then (if g.close then Some("close") else None)
          else (if g.close then None else Some("Keep-Alive"))) &&
      (!x.hasServer || Has(f.headers, "Connection") ==>
        Find(g.headers, "Connection") == Find(f.headers, "Connection"))
  {
    var cLength := ContentLength(b);
    var f1 := f.(headers := Described(x, b, f.headers));
    var f2 := Delimited(x, status, cLength, f1);
    DescribedHeaders(x, b, f.headers, "Connection");
    DelimitedEffect(x, status, cLength, f1, "Connection");
    AnnouncedEffect(x, f2, "Connection");
  }

  /** The announced Content-Length reads back as the body's length. */
  lemma ContentLengthReadsBack(x: Exchange, status: HTTPStatus, b: Body, f: Framing)
    requires ContentLength(b).Some?
    ensures var v := Get(Prepared(x, status, b, f).headers, "Content-Length", "");
      AllDigits(v) && ParseNat(v) == ContentLength(b).value
  {
    PreparedHeaders(x, status, b, f);
    ParseNatToString(ContentLength(b).value);
  }

  /** A response: its framing state, body and status, and what it knows of its request. */
  class Response {
    var headers: Headers
    var close: bool
    var chunked: bool
    var body: Body
    var status: HTTPStatus
    const protocol: string
    const requestMethod: string
    const hasServer: bool
    const encoding: string

    function Context(): Exchange
    {
      Exchange(protocol, requestMethod, hasServer, encoding)
    }

    function State(): Framing
      reads this
    {
      Framing(headers, close, chunked)
    }

    /**
     * A fresh response (wrappers.py:268-291) with the headers its constructor
     * has written; body [], not closing, not chunked.
     */
    constructor (protocol: string, requestMethod: string, hasServer: bool, encoding: string,
                 status: HTTPStatus, headers: Headers)
      ensures this.protocol == protocol && this.requestMethod == requestMethod
      ensures this.hasServer == hasServer && this.encoding == encoding
      ensures State() == Framing(headers, false, false)
      ensures body == ListBody([]) && this.status == status
    {
      this.protocol := protocol;
      this.requestMethod := requestMethod;
      this.hasServer := hasServer;
      this.encoding := encoding;
      this.headers := headers;
      this.close := false;
      this.chunked := false;
      this.body := ListBody([]);
      this.status := status;
    }

    /** response.body = v (Body.__set__). */
    method SetBody(v: BodyValue)
      modifies this`body
      ensures body == StoredBody(old(body), v)
    {
      if v == AssignSelf {
        return;
      }
      match v {
        case AssignBytes(bs) =>
          body := if bs != [] then ListBody([Some(BytesChunk(bs))]) else ListBody([]);
        case AssignText(t) =>
          body := TextBody(t);
        case AssignList(items) =>
          body := ListBody(items);
        case AssignNone =>
          body := ListBody([]);
        case AssignError(text) =>
          body := ListBody([Some(TextChunk(text))]);
        case AssignOther(id) =>
          body := OtherBody(id);
      }
    }

    /** response.status = v (Status.__set__); a KeyError leaves the status as it was. */
    method SetStatus(codes: map<int, string>, v: StatusValue) returns (r: Result<HTTPStatus, WebError>)
      modifies this`status
      ensures r == StoredStatus(codes, v)
      ensures r.Ok? ==> status == r.value
      ensures r.Err? ==> status == old(status)
    {
      r := StoredStatus(codes, v);
      if r.Ok? {
        status := r.value;
      }
    }

    /** Response.prepare (wrappers.py:317-372), leaving out the Set-Cookie headers. */
    method Prepare()
      modifies this`headers, this`close, this`chunked
      ensures State() == Prepared(Context(), status, body, old(State()))
    {
      ghost var f0 := State();
      var cLength := Describe();
      ghost var f1 := State();
      Delimit(cLength);
      ghost var f2 := State();
      Announce();
      ghost var f3 := State();
      if Get(headers, "Transfer-Encoding", "") == "chunked" {
        chunked := true;
      }
      assert f1 == f0.(headers := Described(Context(), body, f0.headers));
      assert f2 == Delimited(Context(), status, ContentLength(body), f1);
      assert State() == Flagged(Announced(Context(), f2));
    }

    /** The Content-Type default and the Content-Length of prepare (wrappers.py:319-340). */
    method Describe() returns (cLength: Option<nat>)
      modifies this`headers
      ensures cLength == ContentLength(body)
      ensures headers == Described(Context(), body, old(headers))
    {
      headers := SetDefault(headers, "Content-Type", "text/html; charset=" + encoding);
      cLength := ContentLength(body);
      if cLength.Some? {
        headers := SetItem(headers, "Content-Length", NatToString(cLength.value));
      }
    }

    /** How prepare marks the end of the body (wrappers.py:345-360). */
    method Delimit(cLength: Option<nat>)
      modifies this`headers, this`close, this`chunked
      ensures State() == Delimited(Context(), status, cLength, old(State()))
    {
      if EqualsInt(status, 413) {
        close := true;
      } else if !Has(headers, "Content-Length") {
        if LessThan(status, 200) || status.status in {204, 205, 304} {
        } else if protocol == "HTTP/1.1" && requestMethod != "HEAD" && hasServer && cLength != Some(0) {
          chunked := true;
          headers := AddHeader(headers, "Transfer-Encoding", "chunked");
        } else {
          close := true;
        }
      }
    }

    /** The Connection header prepare adds (wrappers.py:362-369). */
    method Announce()
      modifies this`headers
      ensures State() == Announced(Context(), old(State()))
    {
      if hasServer && !Has(headers, "Connection") {
        if protocol == "HTTP/1.1" {
          if close {
            headers := AddHeader(headers, "Connection", "close");
          }
        } else if !close {
          headers := AddHeader(headers, "Connection", "Keep-Alive");
        }
      }
    }
  }

  /**
   * Response.__init__ (wrappers.py:268-291) as its caller sees it: a missing
   * status means 200, and the code is wrapped as HTTPStatus(code), which
   * raises KeyError for a code the reason table does not know.
   */
  method NewResponse(codes: map<int, string>, protocol: string, requestMethod: string, hasServer: bool,
                     encoding: string, status: Option<int>, headers: Headers)
    returns (r: Result<Response, WebError>)
    ensures var code := if status.Some? then status.value else 200;
      (r.Ok? <==> code in codes) &&
      (r.Err? ==> r.error == KeyError) &&
      (r.Ok? ==>
        fresh(r.value) &&
        r.value.status == HTTPStatus(code, codes[code]) &&
        r.value.body == ListBody([]) &&
        r.value.State() == Framing(headers, false, false) &&
        r.value.Context() == Exchange(protocol, requestMethod, hasServer, encoding))
  {
    var code := if status.Some? then status.value else 200;
    var wrapped := NewStatus(codes, code, None);
    if wrapped.Err? {
      return Err(wrapped.error);
    }
    var response := new Response(protocol, requestMethod, hasServer, encoding, wrapped.value, headers);
    r := Ok(response);
  }

  // ---------------------------------------------------------------------
  // Request.headers setter

  /** The address the request's server listens on. */
  datatype ServerAddress = ServerAddress(host: string, port: int)

  /**
   * The base URL the headers setter computes (wrappers.py:185-188): the Host
   * header when it is non-empty, otherwise the name of `request.local`, which
   * is Host(server.host, server.port) and so raises when there is no server.
   */
  function BaseUrl(scheme: string, h: Headers, server: Option<ServerAddress>): (r: Result<string, WebError>)
    ensures Has(h, "Host") && Get(h, "Host", "") != "" ==>
      r == Ok(scheme + "://" + Get(h, "Host", ""))
    ensures (Get(h, "Host", "") == "") && server.Some? ==> r == Ok(scheme + "://" + server.value.host)
    ensures r.Err? <==> Get(h, "Host", "") == "" && server.None?
  {
    var host := Get(h, "Host", "");
    if host != "" then Ok(scheme + "://" + host)
    else if server.None? then Err(AttributeError)
    else
      var local := NewHost(server.value.host, server.value.port, None);
      Ok(scheme + "://" + (if local.name != "" then local.name else local.ip))
  }

  /** The xhr flag (wrappers.py:190-191): an X-Requested-With of "XMLHttpRequest", in any letter case. */
  predicate IsXhr(h: Headers)
  {
    LowerAscii(Get(h, "X-Requested-With", "")) == "xmlhttprequest"
  }

  /**
   * A request is an XMLHttpRequest exactly when it carries an X-Requested-With
   * header whose value is "XMLHttpRequest" up to the case of its letters:
   * fourteen characters, each lower-casing to the matching one of
   * "xmlhttprequest". Without the header it never is.
   */
  lemma XhrMatchesHeader(h: Headers)
    ensures IsXhr(h) <==>
      Has(h, "X-Requested-With") && LowerAscii(Find(h, "X-Requested-With").value) == "xmlhttprequest"
    ensures IsXhr(h) <==>
      Has(h, "X-Requested-With") &&
      var v := Find(h, "X-Requested-With").value;
      |v| == 14 && forall i :: 0 <= i < 14 ==> LowerChar(v[i]) == "xmlhttprequest"[i]
    ensures Find(h, "X-Requested-With") == Some("XMLHttpRequest") ==> IsXhr(h)
  {
    if !Has(h, "X-Requested-With") {
      assert LowerAscii("") == "";
    }
  }

  /** A request: the headers it was given and what the setter derives from them. */
  class Request {
    const scheme: string
    const server: Option<ServerAddress>
    var headers: Headers
    var base: string
    var xhr: bool

    /** Request.__init__ (wrappers.py:148-169): an empty scheme falls back to "http". */
    constructor (scheme: string, server: Option<ServerAddress>)
      ensures this.scheme == (if scheme == "" then "http" else scheme) && this.server == server
      ensures this.scheme != ""
      ensures headers == [] && base == "" && !xhr
    {
      this.scheme := if scheme == "" then "http" else scheme;
      this.server := server;
      headers := [];
      base := "";
      xhr := false;
    }

    /**
     * request.headers = h (wrappers.py:175-191), leaving out the cookies. The
     * headers are stored first, so a raise while computing the base URL leaves
     * them set and `base` and `xhr` as they were.
     */
    method SetHeaders(h: Headers) returns (r: Result<string, WebError>)
      modifies this`headers, this`base, this`xhr
      ensures headers == h
      ensures r == BaseUrl(scheme, h, server)
      ensures r.Ok? ==> base == r.value && xhr == IsXhr(h)
      ensures r.Err? ==> base == old(base) && xhr == old(xhr)
    {
      headers := h;
      var host := Get(headers, "Host", "");
      if host == "" {
        if server.None? {
          return Err(AttributeError);
        }
        var local := NewHost(server.value.host, server.value.port, None);
        host := if local.name != "" then local.name else local.ip;
      }
      base := scheme + "://" + host;
      xhr := LowerAscii(Get(headers, "X-Requested-With", "")) == "xmlhttprequest";
      r := Ok(base);
    }
  }
}
