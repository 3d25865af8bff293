/** Signed email links: tokens of the form `payload || tag` in URL-safe base64, and the URLs that carry them.

    HMAC-SHA256 is a parameter: some function of a key and a message with 32 bytes of result. The URL
    library is one too: what a text parses to, and the text a URL is written as. */
module EmailLinks {
  import opened Wrappers
  import opened Base64Url

  const TAG_LEN := 16
  // "postit-unsub-v1", "postit-click-v1" and "postit-open-v1"
  const UNSUBSCRIBE: seq<byte> := [112, 111, 115, 116, 105, 116, 45, 117, 110, 115, 117, 98, 45, 118, 49]
  const CLICK: seq<byte> := [112, 111, 115, 116, 105, 116, 45, 99, 108, 105, 99, 107, 45, 118, 49]
  const OPEN: seq<byte> := [112, 111, 115, 116, 105, 116, 45, 111, 112, 101, 110, 45, 118, 49]

  type Bytes16 = b: seq<byte> | |b| == 16 ghost witness seq(16, _ => 0)

  type Bytes32 = b: seq<byte> | |b| == 32 ghost witness seq(32, _ => 0)

  type Hmac = (seq<byte>, seq<byte>) -> Bytes32

  datatype Url = Url(scheme: string, authority: string, path: string, query: Option<string>, fragment: Option<string>) {
    predicate IsWeb() {
      scheme == "http" || scheme == "https"
    }
  }

  datatype UrlLibrary = UrlLibrary(parse: seq<byte> -> Option<Url>, text: Url -> seq<byte>)

  datatype Unsubscribe = Unsubscribe(owner: Bytes16, hash: Bytes32, language: Language, send: Bytes16)

  datatype Language = EnUs

  datatype Click = Click(send: Bytes16, destination: Url)

  datatype NotWebBase = NotWebBase

  /** What the MAC signs. */
  function MacInput(kind: seq<byte>, payload: seq<byte>): seq<byte> {
    kind + [0] + payload
  }

  predicate NulFree(kind: seq<byte>) {
    0 !in kind
  }

  datatype Links = Links(key: seq<byte>, base: Url, hmac: Hmac) {
    function Tag(kind: seq<byte>, payload: seq<byte>): Bytes16 {
      hmac(key, MacInput(kind, payload))[..TAG_LEN]
    }

    function Seal(kind: seq<byte>, payload: seq<byte>): string {
      Encode(payload + Tag(kind, payload))
    }

    /** Everything before the last 16 bytes, if those are the tag of it under `kind`. */
    function Open(kind: seq<byte>, token: string): Option<seq<byte>> {
      match Decode(token)
      case None => None
      case Some(raw) =>
        if |raw| < TAG_LEN then None
        else
          var payload, tag := raw[..|raw| - TAG_LEN], raw[|raw| - TAG_LEN..];
          if hmac(key, MacInput(kind, payload))[..|tag|] == tag then Some(payload) else None
    }

    /** `{base}public/{route}/{token}` */
    function UrlOf(route: string, token: string): Url {
      base.(path := base.path + "public/" + route + "/" + token)
    }

    function VerifyUnsubscribe(token: string): Option<Unsubscribe> {
      match Open(UNSUBSCRIBE, token)
      case None => None
      case Some(p) =>
        if |p| != 16 + 32 + 1 + 16 then None
        else if p[48] != 0 then None
        else Some(Unsubscribe(p[..16], p[16..48], EnUs, p[49..]))
    }

    function VerifyClick(lib: UrlLibrary, token: string): Option<Click> {
      match Open(CLICK, token)
      case None => None
      case Some(p) =>
        if |p| <= 16 then None
        else match lib.parse(p[16..])
          case None => None
          case Some(destination) => if destination.IsWeb() then Some(Click(p[..16], destination)) else None
    }

    function VerifyOpen(token: string): Option<Bytes16> {
      match Open(OPEN, token)
      case None => None
      case Some(p) => if |p| == 16 then Some(p) else None
    }

    function UnsubscribeUrl(u: Unsubscribe): Url {
      UrlOf("u", Seal(UNSUBSCRIBE, UnsubscribePayload(u)))
    }

    function ClickUrl(lib: UrlLibrary, send: Bytes16, destination: Url): Url {
      if !destination.IsWeb() then destination else UrlOf("t/c", Seal(CLICK, send + lib.text(destination)))
    }

    function OpenPixelUrl(send: Bytes16): Url {
      UrlOf("t/o", Seal(OPEN, send))
    }
  }

  function UnsubscribePayload(u: Unsubscribe): seq<byte> {
    u.owner + u.hash + [match u.language case EnUs => 0] + u.send
  }

  predicate EndsInSlash(path: string) {
    path != "" && path[|path| - 1] == '/'
  }

  /** Links under `base`: its path is made to end in `/`, its query and fragment are dropped. */
  method New(key: seq<byte>, base: Url, hmac: Hmac) returns (r: Result<Links, NotWebBase>)
    ensures r.Ok? <==> base.scheme == "http" || base.scheme == "https"
    ensures r.Ok? ==> r.value.key == key && r.value.hmac == hmac
    ensures r.Ok? ==> r.value.base.path != "" && r.value.base.path[|r.value.base.path| - 1] == '/'
    ensures r.Ok? ==> r.value.base == base.(path := r.value.base.path, query := None, fragment := None)
    ensures r.Ok? ==> r.value.base.path in {base.path, base.path + "/"}
    ensures r.Ok? && base.path != "" && base.path[|base.path| - 1] == '/' ==> r.value.base.path == base.path
  {
    if !base.IsWeb() {
      return Err(NotWebBase);
    }
    var edited := base;
    if !EndsInSlash(edited.path) {
      edited := edited.(path := edited.path + "/");
    }
    edited := edited.(query := None);
    edited := edited.(fragment := None);
    return Ok(Links(key, edited, hmac));
  }

  // ---------- Tokens ----------

  /** A token is accepted under a kind with some payload exactly when it is the seal of that payload. */
  lemma OpenIffSeal(links: Links, kind: seq<byte>, token: string, payload: seq<byte>)
    ensures links.Open(kind, token) == Some(payload) <==> token == links.Seal(kind, payload)
  {
    hide Encode, Decode, MacInput;
    var raw := payload + links.Tag(kind, payload);
    DecodeIffEncode(token, raw);
    assert raw[..|raw| - TAG_LEN] == payload && raw[|raw| - TAG_LEN..] == links.Tag(kind, payload);
    if links.Open(kind, token) == Some(payload) {
      var got := Decode(token).value;
      assert got == got[..|got| - TAG_LEN] + got[|got| - TAG_LEN..];
    }
  }

  /** The kind and the payload can be read back from what the MAC signs. */
  lemma MacInputInjective(l1: seq<byte>, p1: seq<byte>, l2: seq<byte>, p2: seq<byte>)
    requires NulFree(l1) && NulFree(l2)
    ensures MacInput(l1, p1) == MacInput(l2, p2) <==> l1 == l2 && p1 == p2
  {
    hide MacInput;
    FirstNul(l1, p1);
    FirstNul(l2, p2);
  }

  lemma FirstNul(l: seq<byte>, p: seq<byte>)
    requires NulFree(l)
    ensures var x := MacInput(l, p);
            && |l| < |x| && x[|l|] == 0 && (forall i :: 0 <= i < |l| ==> x[i] != 0)
            && x[..|l|] == l && x[|l| + 1..] == p
  {
    var x := MacInput(l, p);
    forall i | 0 <= i < |l| ensures x[i] != 0 {
      assert x[i] == l[i] && l[i] in l;
    }
  }

  /** A token sealed under one kind passes under another exactly when the tags of two different MAC inputs
      coincide, for every payload length. */
  lemma CrossLabel(links: Links, sealed: seq<byte>, other: seq<byte>, payload: seq<byte>)
    requires NulFree(sealed) && NulFree(other) && sealed != other
    ensures links.Open(other, links.Seal(sealed, payload)).Some? <==> links.Tag(sealed, payload) == links.Tag(other, payload)
    ensures MacInput(sealed, payload) != MacInput(other, payload)
  {
    hide Encode, Decode, MacInput, Links.Tag;
    MacInputInjective(sealed, payload, other, payload);
    var token := links.Seal(sealed, payload);
    OpenIffSeal(links, other, token, payload);
    if links.Open(other, token).Some? {
      var p := links.Open(other, token).value;
      OpenIffSeal(links, other, token, p);
      var x, y := payload + links.Tag(sealed, payload), p + links.Tag(other, p);
      DecodeIffEncode(token, x);
      DecodeIffEncode(token, y);
      assert x == y;
      assert p == y[..|y| - TAG_LEN] == x[..|x| - TAG_LEN] == payload;
      assert x[|x| - TAG_LEN..] == links.Tag(sealed, payload) && y[|y| - TAG_LEN..] == links.Tag(other, payload);
    }
  }

  /** What is signed and how it is written: the payload, then the first 16 bytes of the HMAC of the label, a
      zero byte and the payload. */
  lemma SealSpelled(links: Links, kind: seq<byte>, payload: seq<byte>)
    ensures var mac := links.hmac(links.key, kind + [0] + payload);
            links.Seal(kind, payload) == Encode(payload + mac[..16])
  {
    hide Encode;
  }

  lemma LabelsAreSeparate()
    ensures NulFree(UNSUBSCRIBE) && NulFree(CLICK) && NulFree(OPEN)
    ensures UNSUBSCRIBE != CLICK && CLICK != OPEN && UNSUBSCRIBE != OPEN
    ensures Spells(UNSUBSCRIBE, "postit-unsub-v1") && Spells(CLICK, "postit-click-v1") && Spells(OPEN, "postit-open-v1")
  {
    assert UNSUBSCRIBE[7] == 117 && CLICK[7] == 99 && OPEN[7] == 111;
  }

  ghost predicate Spells(kind: seq<byte>, text: string) {
    |kind| == |text| && forall i :: 0 <= i < |text| ==> kind[i] == text[i] as int
  }

  // ---------- The three kinds, field by field ----------

  /** The unsubscribe payload: owner, address hash, language, send, in this order. */
  lemma PayloadSpelled(u: Unsubscribe)
    ensures var p := UnsubscribePayload(u);
            |p| == 65 && p[0..16] == u.owner && p[16..48] == u.hash && p[48] == 0 && p[49..65] == u.send
  {
  }

  lemma UnsubscribeIff(links: Links, token: string, u: Unsubscribe)
    ensures links.VerifyUnsubscribe(token) == Some(u) <==> token == links.Seal(UNSUBSCRIBE, UnsubscribePayload(u))
  {
    hide Links.Open, Links.Seal;
    var p := UnsubscribePayload(u);
    OpenIffSeal(links, UNSUBSCRIBE, token, p);
    assert |p| == 65 && p[..16] == u.owner && p[16..48] == u.hash && p[48] == 0 && p[49..] == u.send;
    assert u.language.EnUs?;
    if links.VerifyUnsubscribe(token) == Some(u) {
      var q := links.Open(UNSUBSCRIBE, token).value;
      assert q == q[..16] + q[16..48] + [q[48]] + q[49..];
      assert q == p;
      OpenIffSeal(links, UNSUBSCRIBE, token, q);
    }
  }

  lemma OpenPixelIff(links: Links, token: string, send: Bytes16)
    ensures links.VerifyOpen(token) == Some(send) <==> token == links.Seal(OPEN, send)
  {
    hide Links.Open, Links.Seal;
    OpenIffSeal(links, OPEN, token, send);
  }

  /** A click token is accepted exactly when it seals a send and a text that parses to a web destination. */
  lemma ClickIff(links: Links, lib: UrlLibrary, token: string, c: Click)
    ensures links.VerifyClick(lib, token) == Some(c) <==>
            exists text: seq<byte> :: text != [] && lib.parse(text) == Some(c.destination) && c.destination.scheme in {"http", "https"} &&
                                      token == links.Seal(CLICK, c.send + text)
  {
    hide Links.Open, Links.Seal;
    if links.VerifyClick(lib, token) == Some(c) {
      var p := links.Open(CLICK, token).value;
      OpenIffSeal(links, CLICK, token, p);
      assert p == c.send + p[16..];
    }
    if text: seq<byte> :| text != [] && lib.parse(text) == Some(c.destination) && c.destination.scheme in {"http", "https"} &&
                          token == links.Seal(CLICK, c.send + text) {
      var p := c.send + text;
      OpenIffSeal(links, CLICK, token, p);
      assert p[..16] == c.send && p[16..] == text;
    }
  }

  // ---------- From a URL back to what it carries ----------

  /** The last segment of a path. */
  function LastSegment(path: string): string
    decreases |path|
  {
    if path == "" || path[|path| - 1] == '/' then "" else LastSegment(path[..|path| - 1]) + [path[|path| - 1]]
  }

  lemma {:induction false} SegmentAfterSlash(before: string, segment: string)
    requires before == "" || before[|before| - 1] == '/'
    requires forall i :: 0 <= i < |segment| ==> segment[i] != '/'
    ensures LastSegment(before + segment) == segment
    decreases |segment|
  {
    if segment == "" {
      assert before + segment == before;
    } else {
      var k := |segment| - 1;
      assert (before + segment)[..|before + segment| - 1] == before + segment[..k];
      SegmentAfterSlash(before, segment[..k]);
      assert segment == segment[..k] + [segment[k]];
    }
  }

  /** The token is the last path segment of its URL, for any base, and needs no escaping there. */
  lemma TokenIsLastSegment(links: Links, route: string, kind: seq<byte>, payload: seq<byte>)
    ensures var token := links.Seal(kind, payload);
            && LastSegment(links.UrlOf(route, token).path) == token
            && links.base.path <= links.UrlOf(route, token).path
            && token != ""
            && forall i :: 0 <= i < |token| ==> token[i] in {'-', '_'} || 'A' <= token[i] <= 'Z' || 'a' <= token[i] <= 'z' || '0' <= token[i] <= '9'
  {
    hide Encode;
    var raw := payload + links.Tag(kind, payload);
    EncodeChars(raw);
    EncodeNonEmpty(raw);
    TokenCharsAreNotSlash(Encode(raw));
    SegmentAfterSlash(links.base.path + "public/" + route + "/", Encode(raw));
    assert links.base.path + "public/" + route + "/" + Encode(raw) == (links.base.path + "public/" + route + "/") + Encode(raw);
  }

  lemma TokenCharsAreNotSlash(s: string)
    requires forall i :: 0 <= i < |s| ==> IsTokenChar(s[i])
    ensures forall i :: 0 <= i < |s| ==> s[i] != '/'
  {
  }

  /** Where each kind of link points: the route and the token after the base's path, on the base's host. */
  lemma UrlsSpelled(links: Links, lib: UrlLibrary, u: Unsubscribe, send: Bytes16, destination: Url)
    ensures links.UnsubscribeUrl(u) ==
            links.base.(path := links.base.path + "public/u/" + links.Seal(UNSUBSCRIBE, UnsubscribePayload(u)))
    ensures links.OpenPixelUrl(send) == links.base.(path := links.base.path + "public/t/o/" + links.Seal(OPEN, send))
    ensures destination.scheme in {"http", "https"} ==>
              links.ClickUrl(lib, send, destination) ==
              links.base.(path := links.base.path + "public/t/c/" + links.Seal(CLICK, send + lib.text(destination)))
  {
    hide Links.Seal, UnsubscribePayload;
    RouteSpelled(links.base.path, "u", links.Seal(UNSUBSCRIBE, UnsubscribePayload(u)), "public/u/");
    RouteSpelled(links.base.path, "t/o", links.Seal(OPEN, send), "public/t/o/");
    RouteSpelled(links.base.path, "t/c", links.Seal(CLICK, send + lib.text(destination)), "public/t/c/");
  }

  lemma RouteSpelled(base: string, route: string, token: string, spelled: string)
    requires spelled == "public/" + route + "/"
    ensures base + "public/" + route + "/" + token == base + spelled + token
  {
    assert base + "public/" + route + "/" == base + ("public/" + route + "/");
  }

  /** Each kind of URL gives back, from its last segment, exactly what it was built from; a click URL does so
      when its destination is what its own text parses to. */
  lemma UrlsRoundTrip(links: Links, lib: UrlLibrary, u: Unsubscribe, send: Bytes16, destination: Url)
    ensures links.VerifyUnsubscribe(LastSegment(links.UnsubscribeUrl(u).path)) == Some(u)
    ensures links.VerifyOpen(LastSegment(links.OpenPixelUrl(send).path)) == Some(send)
    ensures destination.scheme in {"http", "https"} && lib.parse(lib.text(destination)) == Some(destination) && lib.text(destination) != [] ==>
              links.VerifyClick(lib, LastSegment(links.ClickUrl(lib, send, destination).path)) == Some(Click(send, destination))
    ensures destination.scheme !in {"http", "https"} ==> links.ClickUrl(lib, send, destination) == destination
  {
    hide Links.Seal, Links.VerifyUnsubscribe, Links.VerifyOpen, Links.VerifyClick, UnsubscribePayload, LastSegment;
    TokenIsLastSegment(links, "u", UNSUBSCRIBE, UnsubscribePayload(u));
    UnsubscribeIff(links, links.Seal(UNSUBSCRIBE, UnsubscribePayload(u)), u);
    TokenIsLastSegment(links, "t/o", OPEN, send);
    OpenPixelIff(links, links.Seal(OPEN, send), send);
    var text := lib.text(destination);
    TokenIsLastSegment(links, "t/c", CLICK, send + text);
    ClickIff(links, lib, links.Seal(CLICK, send + text), Click(send, destination));
  }
}
