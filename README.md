# circuits: channel bridge, HTTP wrappers and component-tree tools, in Dafny

This project models three parts of the circuits event framework and proves
properties of each model.

- **The channel bridge** (`circuits/net/socket.py`). A `Socket` (or its
  `Server`/`Client` roles) binds transport components. For each bound component
  it installs two relay handlers over ten event names:
  - an upward handler re-fires the component's own events on the bridge's channel;
  - a downward handler re-fires the bridge's own events on the component's private channel.

  The dispatcher is modelled by the handler table the bridge installs (in
  registration order) and by `Fire`, which lists the events that the table fires
  in response to one event fired on one channel. Components are Dafny objects,
  so "the origin is this socket" is reference equality, as in the source.
- **The request and response wrappers** (`circuits/web/wrappers.py`):
  - `Host`;
  - `HTTPStatus` and its comparisons with integers;
  - the `Body` and `Status` descriptors;
  - the base URL and XMLHttpRequest flag that the request's headers setter derives;
  - `Response.prepare`, which decides the response's framing: Content-Type,
    Content-Length, chunked transfer coding, connection close and the Connection
    header (section 3.3 and section 6 of RFC 7230).

  `prepare` is a method on a `Response` class. It is proved equal to a
  composition of four stage functions, and the framing properties are proved
  about that composition.
- **The component-tree tools** (`circuits/tools/__init__.py`):
  - `walk`, a depth-annotated depth-first traversal that shares one visited set;
  - `edges`, the (parent, child) name pairs along which the traversal first reaches each child;
  - `root`, which follows manager links to a fixpoint;
  - `graph`, the indented rendering of a walk;
  - `reprhandler`.

  A component tree is a finite graph. Each component has:
  - its children, as the sequence in which a snapshot of its component set is iterated;
  - its manager;
  - its name;
  - its text.

Modules: `Results` (Option, Result), `Strings` (decimal rendering and parsing,
join and split, ASCII lower-casing), `NetSocket`, `WebWrappers`, `Tools`.

## Model

| member | source | states |
|---|---|---|
| NetSocket.Apply | circuits/net/socket.py:28-54 | The upward handler forwards an event iff the bound component fired it, onto the bridge's channel. The downward handler forwards iff the bridge fired it and the origin is not a bound component, onto the component's channel. A forwarded event has the same name and payload. |
| NetSocket.BridgeEventFansOut | circuits/net/socket.py:42-54 | An event the bridge fires on its own channel is re-fired onto every bound component's channel, once per bind, in bind order. On any other channel nothing is relayed. |
| NetSocket.SocketEventGoesUp | circuits/net/socket.py:28-38 | An event a bound component fires on its own channel is re-fired onto the bridge's channel as many times as that component was bound. It is never pushed to any component's channel. |
| NetSocket.ForeignEventIsInert | circuits/net/socket.py:31-50 | An event fired by neither the bridge nor a bound component is relayed nowhere, on any channel. |
| NetSocket.OtherNamesAreIgnored | circuits/net/socket.py:14-15 | Event names outside the ten relayed names are relayed nowhere. |
| NetSocket.OccurrencesOfMember | circuits/net/socket.py:24 | A component is in the bridge's set of sockets iff it was bound at least once. |
| NetSocket.RelayIsOneHop | circuits/net/socket.py:28-54 | Under the hypothesis ChannelsApart (no bound component's channel is the bridge's channel), every event the relay fires is itself relayed nowhere, so forwarding never loops. |
| NetSocket.SharedChannelRelaysForever | circuits/net/socket.py:28-36 | A component bound once on the bridge's own channel has its event re-fired on that channel unchanged, and the re-fired event is re-fired again in the same way, so the upward relay never ends. |
| NetSocket.HandlerPair | circuits/net/socket.py:28-54 | One bind installs two handlers for the ten names: first the upward one on the component's channel, then the downward one on the bridge's channel. |
| NetSocket.ResolveAsWritten | circuits/net/socket.py:56-76 | As written, a component is used as given. Any other interface raises NotImplementedError on a plain Socket and TypeError on a Server or Client. |
| NetSocket.ParseInterface | circuits/net/socket.py:79-80 | The module-level parser gives no construction arguments and returns the interface unchanged. |
| NetSocket.SubChannel | circuits/net/socket.py:60 | A constructed component's channel is the bridge's channel, then "_", then the interface's identity. |
| NetSocket.SubChannelsDistinct | circuits/net/socket.py:60 | Different interfaces get different private channels, and none of them is the bridge's channel. |
| NetSocket.Resolve | circuits/net/socket.py:56-76 | A component is used as given. Any other interface raises NotImplementedError on a plain Socket. On a Server or Client it constructs that role's transport with the sub-channel as its only argument. |
| NetSocket.AsWrittenAddressNeverBinds | circuits/net/socket.py:67-80 | As written, Server and Client raise TypeError for every interface that is not a component, where the corrected resolution succeeds. For components the two agree. |
| NetSocket.Component.constructor | circuits/net/socket.py:61 | A constructed transport has the transport class and the channel it was built with. |
| NetSocket.Socket.constructor | circuits/net/socket.py:17-19 | A new bridge has no bound components and no relay handlers. |
| NetSocket.Socket.Bind | circuits/net/socket.py:21-54 | On failure nothing changes. On success the component is added to the set and exactly its two relay handlers are appended, keeping the table equal to the rules for the bind history. A component is bound as given; otherwise the result is a fresh transport of the role's class on the sub-channel, and a plain Socket fails. |
| NetSocket.BoundOnceRelaysOnce | circuits/net/socket.py:28-38 | For a consistent bridge, an event of a component bound once, fired on its channel, reaches the bridge's channel exactly once. |
| NetSocket.UpwardEchoIsDropped | circuits/net/socket.py:28-47 | For a consistent bridge, an event a bound component fires on the bridge's channel is never pushed down to a component: the only thing fired is that event again on the bridge's channel. Nothing is fired when the component's channel differs from the bridge's, and so nothing under the hypothesis ChannelsApart. |
| WebWrappers.FindAfterWrites | circuits/web/wrappers.py:319-358 | add_header and setdefault keep an existing value and otherwise expose the new one. Assigning a header replaces its value. No other header changes. |
| WebWrappers.NewHost | circuits/web/wrappers.py:52-57 | A host keeps its IP address and port. Its name is the given name, or the IP address when none is given. |
| WebWrappers.NewStatus | circuits/web/wrappers.py:67-69 | A non-empty reason is kept. Otherwise the reason is the standard one for the code, and an unknown code is a KeyError. |
| WebWrappers.StatusComparesAsCode | circuits/web/wrappers.py:71-87 | Comparing a status with an int compares its code: <, == and > agree with int(status), and exactly one of them holds. |
| WebWrappers.StoredBody | circuits/web/wrappers.py:217-234 | Assigning the response to itself changes nothing. Non-empty bytes become a one-element list, and empty bytes or None become the empty list. An HTTP error becomes the list holding its text. Text, lists and other iterables are stored as given. |
| WebWrappers.ContentLength | circuits/web/wrappers.py:323-337 | The length prepare computes is unknown exactly for no body and for other iterables. For bytes it is their count; for text it is between the character count and four times that; a list of only None items has length 0. |
| WebWrappers.ListLengthAppend | circuits/web/wrappers.py:329-337 | The length of a list body is additive: the length of two lists joined is the sum of their lengths. |
| WebWrappers.Utf8Length | circuits/web/wrappers.py:328 | The encoded length of a text is between its character count and four times that count. |
| WebWrappers.StoredBodyKeepsLength | circuits/web/wrappers.py:221-232 | The Content-Length that prepare computes for a normalised body: the byte count for bytes, 0 for None, and the encoded length for text or an error's text. Self-assignment keeps the old length. |
| WebWrappers.StoredStatus | circuits/web/wrappers.py:246-249 | An int is wrapped as a status whose code is that int and whose reason is the standard one; an unknown int is a KeyError. An HTTPStatus is stored as it is. |
| WebWrappers.DescribedHeaders | circuits/web/wrappers.py:319-340 | prepare's first two steps default the Content-Type, set Content-Length when the length is known, and leave every other header alone. |
| WebWrappers.DelimitedEffect | circuits/web/wrappers.py:345-360 | The delimiting step adds "Transfer-Encoding: chunked" and sets `chunked` exactly under the chunking guard. It sets `close` for 413, or for a body-carrying status without Content-Length that cannot chunk. |
| WebWrappers.AnnouncedEffect | circuits/web/wrappers.py:362-369 | The Connection step touches only the Connection header and no flag. |
| WebWrappers.ChunksExactly | circuits/web/wrappers.py:349-357 | Chunking happens exactly when the length is unknown, no Content-Length is set and the exchange allows it. The `not cLength == 0` test never decides anything. |
| WebWrappers.PreparedHeaders | circuits/web/wrappers.py:317-372 | After prepare: Content-Type is the given one or the default. Content-Length is the body's length whenever that is known. Transfer-Encoding is added only when prepare starts chunking, and a chunked response carries no Content-Length. |
| WebWrappers.PreparedFlags | circuits/web/wrappers.py:317-372 | After prepare: `close` iff it was set or prepare must close (413, or an undelimitable body), and 413 always closes. `chunked` iff it was set, prepare started chunking, or the given Transfer-Encoding was chunked. A final chunked Transfer-Encoding always sets `chunked`. |
| WebWrappers.BodyEndIsMarked | circuits/web/wrappers.py:345-360 | Every response whose status allows a body leaves prepare with a Content-Length, chunking, or a closing connection. |
| WebWrappers.ChunkingNeedsCapablePeer | circuits/web/wrappers.py:353-358 | prepare chunks only for HTTP/1.1, never for HEAD, only through a server, and only when the length is unknown. |
| WebWrappers.ConnectionHeader | circuits/web/wrappers.py:362-369 | With a server and no Connection header, HTTP/1.1 says "close" exactly when closing, and other protocols say "Keep-Alive" exactly when not closing. Otherwise the header is left alone. |
| WebWrappers.ContentLengthReadsBack | circuits/web/wrappers.py:339-340 | The Content-Length written is a decimal numeral that parses back to the body's length. |
| WebWrappers.Response.constructor | circuits/web/wrappers.py:268-291 | Once the status is resolved, a new response has an empty list body, that status, the given headers, and neither close nor chunked. |
| WebWrappers.NewResponse | circuits/web/wrappers.py:268-291 | A missing status means 200. The response exists exactly when the code has a standard reason, and then carries HTTPStatus(code) with that reason, an empty list body and neither flag. An unknown code is a KeyError. |
| WebWrappers.Response.SetBody | circuits/web/wrappers.py:217-234 | Assigning a body stores the normalised value and changes nothing else. |
| WebWrappers.Response.SetStatus | circuits/web/wrappers.py:246-249 | Assigning a status stores the wrapped value. On a KeyError the old status stays. |
| WebWrappers.Response.Prepare | circuits/web/wrappers.py:317-372 | The headers and flags after prepare are the composition of its four steps applied to the old state, for the response's body and status. |
| WebWrappers.Response.Describe | circuits/web/wrappers.py:319-340 | Defaults the Content-Type, writes the Content-Length when the body's length is known, and returns that length. This is the first stage of prepare. |
| WebWrappers.Response.Delimit | circuits/web/wrappers.py:345-360 | The headers and flags after delimiting the body are the delimiting stage applied to the old state. |
| WebWrappers.Response.Announce | circuits/web/wrappers.py:362-369 | The headers after the Connection step are the announcing stage applied to the old state. |
| WebWrappers.BaseUrl | circuits/web/wrappers.py:185-205 | The base URL is the scheme with the Host header when that is non-empty, and otherwise with the server's host. With neither it is an AttributeError. |
| WebWrappers.XhrMatchesHeader | circuits/web/wrappers.py:190-191 | A request is an XMLHttpRequest exactly when it has an X-Requested-With header whose lower-cased value is "xmlhttprequest", that is, fourteen characters each lower-casing to the matching letter, so every case variant of "XMLHttpRequest" counts. Without the header it never is. |
| WebWrappers.Request.constructor | circuits/web/wrappers.py:148-169 | A new request has the given scheme, or "http" when that is empty, and its server, no headers, no base URL and is not an XMLHttpRequest. |
| WebWrappers.Request.SetHeaders | circuits/web/wrappers.py:175-191 | The headers are stored first. On success the base URL and xhr flag follow from them. When the base URL raises, base and xhr keep their old values. |
| Tools.Descend | circuits/tools/__init__.py:11-19 | The visited set after a walk only grows. |
| Tools.DescendFresh | circuits/tools/__init__.py:15-18 | Within one walk each component is descended into at most once: every reported child was not yet visited, hangs below its parent, and the visited set grows by exactly the reported children. |
| Tools.DescendAllFresh | circuits/tools/__init__.py:15-18 | The same for the loop over one snapshot of children. |
| Tools.DescendDepths | circuits/tools/__init__.py:14-18 | A child of x is reported at x's depth plus one. Every deeper component is reported one level below an earlier-reported component it hangs from. |
| Tools.DescendAllDepths | circuits/tools/__init__.py:15-18 | The same for the loop over one snapshot of children. |
| Tools.Walk | circuits/tools/__init__.py:11-19 | walk yields f of x at its depth, then f of each component reached, in traversal order, and leaves the visited set the traversal leaves. |
| Tools.WalkChild | circuits/tools/__init__.py:15-18 | One round of walk's loop. What it yields, followed by what the rest of the loop yields, is what the loop yields from that child on, and it leaves the visited set the traversal leaves. |
| Tools.WalkStartsAtTop | circuits/tools/__init__.py:11-14 | The first value walk yields is f(d, x). After it comes one value per component reached. |
| Tools.DescendShift | circuits/tools/__init__.py:11-19 | Which components a walk reaches, from where, in which order, and its final visited set do not depend on its starting depth. |
| Tools.Edges | circuits/tools/__init__.py:21-31 | edges returns the given pairs plus the (parent name, child name) pair of every link along which the traversal first reached a child, and leaves the traversal's visited set. |
| Tools.EdgesChild | circuits/tools/__init__.py:25-30 | One round of edges' loop. The pairs it adds, together with those of the rest of the loop, are the pairs the loop collects from that child on. |
| Tools.EdgesAreTreeLinks | circuits/tools/__init__.py:26-30 | Every collected pair names a component and one of its children, along a link that the traversal took. |
| Tools.Root | circuits/tools/__init__.py:38-42 | A result of root manages itself, and a component that manages itself is its own root. |
| Tools.RootCharacterised | circuits/tools/__init__.py:38-42 | root's result manages itself and lies on the manager chain from x. There is a result exactly when the chain reaches such a component. |
| Tools.RootFollowsManager | circuits/tools/__init__.py:38-42 | root(x) is x when x manages itself, and root(x.manager) otherwise. |
| Tools.FirstRoot | circuits/tools/__init__.py:38-42 | A fixpoint the manager chain reaches at all, it reaches in fewer steps than there are components. |
| Tools.DrawGraph | circuits/tools/__init__.py:49-62 | graph joins, with newlines, the printer's line for every value of the walk from x. |
| Tools.GraphLines | circuits/tools/__init__.py:59-62 | When no component's text contains a newline, graph has one line per walked component. The first is "* " and x's text; each later line is the component's depth in spaces, "* ", then its text. |
| Tools.ReprHandler | circuits/tools/__init__.py:64-82 | A TypeError exactly when the argument is not an event handler. Otherwise the text starts "<handler (" and ends "}>". |
| Tools.ReprHandlerReadsBack | circuits/tools/__init__.py:64-82 | With at least one channel, no channel containing a comma or ")", and a target without a quote, the rendering reads back to the same channels, filter flag and priority, and to the same target except that an empty target reads back as none (`x.target or ""`). |

## Left out

- The event dispatcher itself is not modelled: `register`, `addHandler`, `fire`, handler priorities, and the order across handlers of different components. The bridge's handlers are a table, and `Fire` lists what the table fires for one event on one channel.
- `socket.register(self)` in `bind` (socket.py:23) is left out because it belongs to the dispatcher.
- The transport classes `circuits.net.sockets.Server` and `Client` are recorded only by their class and channel, because their construction does I/O.
- `id(interface)` is modelled as a natural-number token carried by the interface.
- Binding any bridge (a Socket, Server or Client) into a bridge, itself included, is not modelled: bound components are a separate class from bridges, though socket.py:57 accepts any BaseComponent.
- WebWrappers.Find: header names match exactly. The source's `Headers` class compares names case-insensitively, and that class is not part of this model.
- WebWrappers.Utf8Length: lengths are UTF-8 lengths. Other response encodings are not modelled.
- WebWrappers.IsXhr: `lower()` is modelled for ASCII letters only.
- The Date, Server and X-Powered-By headers are not modelled; they use the clock and the server version. The response constructor takes its initial headers as a parameter.
- WebWrappers.Response.constructor: takes the status already resolved as an HTTPStatus; the default of 200 for None, the wrapping of an int and the KeyError for an unknown code are stated by WebWrappers.NewResponse.
- WebWrappers.StoredStatus: only ints and HTTPStatus values are modelled. Any other value, which wrappers.py:247 stores unchanged and which makes prepare's `status < 200` comparison fail, is not.
- Cookies are left out: Set-Cookie in `prepare` and Cookie parsing in the headers setter.
- File bodies (`IOBase`, `file_generator`) and the `stream` flag are not modelled as such. They fall under "other iterable of unknown length".
- `HTTPStatus` comparisons with non-int operands are not modelled; they fall back to object comparison.
- Not modelled: the `__repr__`/`__str__` methods, `Request.url`, and the deprecated `code`/`message` properties.
- `Request.__init__` reading the peer address from the socket is I/O and is not modelled.
- Tools.Walk: walk is a generator. The model computes all of its values, and the tree does not change during a walk.
- Tools.Root: the source recurses forever, hitting Python's recursion limit, when the manager chain never reaches a component that manages itself. The model returns None there.
- Tools.Repr: the quote choice and escaping of Python's `repr` are not modelled. The target is quoted as it is.
- `dotgraph` (uses pydot), `kill` (dispatcher `unregister`) and `inspect` (dispatcher tables) are not modelled.

## Findings

| source | as written | input that shows it | evidently intended | confidence | as-written member | corrected member |
|---|---|---|---|---|---|---|
| circuits/net/socket.py:28-36 | A component bound as given on the bridge's own channel: its upward handler re-fires the event on that same channel with the same origin and name, so the handler matches its own output and the relay never ends. | `bind(c)` where `c.channel` is the bridge's channel, then `c` fires "read" | Relay each event one hop only, e.g. by refusing a component whose channel is the bridge's | not executed | NetSocket.SharedChannelRelaysForever | NetSocket.RelayIsOneHop |
| circuits/net/socket.py:79 | The module-level `parse_interface_type(self, interface)` takes two parameters. `Server` and `Client` call it with one (socket.py:69, 75), so it raises TypeError. | `bind` on a Server or Client with any interface that is not a component, e.g. an address tuple | Take the interface alone and return `({}, interface)`, so Server and Client construct their transport on the sub-channel | not executed | NetSocket.AsWrittenAddressNeverBinds | NetSocket.Resolve |
