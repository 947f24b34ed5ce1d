/**
 The ETag poller of the panel client, against a panel that answers as sections 13.1.2 and 15.4.5 of
 RFC 9110 ask, and against a client that downloads every time.
 */
module Poller {
  import opened Wrappers

  /** What a request comes back with; `header` is the ETag header, empty if missing. */
  datatype Response<+T> =
    | NoAnswer
    | NotModified(header: string)
    | Refused
    | Undecodable(header: string)
    | Document(header: string, body: T)

  /** What get hands its caller: the tag to use next, whether there is a new body, whether it failed. */
  datatype Fetched<+T> = Fetched(tag: string, body: Option<T>, failed: bool)

  function Fetch<T>(etag: string, resp: Response<T>): Fetched<T> {
    match resp
    case NoAnswer => Fetched(etag, None, true)
    case NotModified(header) => Fetched(if header == "" then etag else header, None, false)
    case Refused => Fetched(etag, None, true)
    case Undecodable(_) => Fetched(etag, None, true)
    case Document(header, body) => Fetched(if header == "" then etag else header, Some(body), false)
  }

  /** get, step by step as the client runs it. */
  method Get<T>(etag: string, resp: Response<T>) returns (fetched: Fetched<T>)
    ensures fetched == Fetch(etag, resp)
  {
    if resp.NoAnswer? {
      return Fetched(etag, None, true);
    }
    if resp.Refused? {
      return Fetched(etag, None, true);
    }
    var next := resp.header;
    if next == "" {
      next := etag;
    }
    if resp.NotModified? {
      return Fetched(next, None, false);
    }
    if resp.Undecodable? {
      return Fetched(etag, None, true);
    }
    return Fetched(next, Some(resp.body), false);
  }

  /** What the caller keeps between polls: a tag and the body last received. */
  datatype Client<+T> = Client(tag: string, stored: Option<T>)

  function Poll<T>(c: Client<T>, resp: Response<T>): Client<T> {
    var f := Fetch(c.tag, resp);
    if f.failed then c else Client(f.tag, if f.body.Some? then f.body else c.stored)
  }

  /** What the panel serves at some moment; an empty tag means it sends none with it. */
  datatype Resource<+T> = Resource(body: T, tag: string)

  /**
   A conforming answer to a request that carried `etag`: 304 exactly when the tag sent is the current
   one, with the same ETag a 200 would carry or none; 200 with the current body and its tag.
   */
  predicate Conforms<T(==)>(etag: string, resp: Response<T>, r: Resource<T>) {
    match resp
    case NotModified(header) => etag != "" && r.tag == etag && (header == "" || header == r.tag)
    case Document(header, body) => body == r.body && header == r.tag && !(etag != "" && r.tag == etag)
    case _ => true
  }

  /** A tag always names the same body. */
  predicate Names<T(==)>(bodyOf: string -> T, r: Resource<T>) {
    r.tag != "" ==> r.body == bodyOf(r.tag)
  }

  /** The stored tag, if any, names the stored body. */
  predicate TagNamesBody<T(==)>(bodyOf: string -> T, c: Client<T>) {
    c.tag != "" ==> c.stored == Some(bodyOf(c.tag))
  }

  /** The one answer the poller mishandles: a changed body without an ETag, while it still holds an older tag. */
  predicate UntaggedChange<T(==)>(c: Client<T>, resp: Response<T>) {
    resp.Document? && resp.header == "" && c.tag != "" && Some(resp.body) != c.stored
  }

  /** A poll that succeeds leaves the client with what an always-downloading client would have. */
  lemma PollAgrees<T>(bodyOf: string -> T, c: Client<T>, resp: Response<T>, r: Resource<T>)
    requires TagNamesBody(bodyOf, c) && Names(bodyOf, r) && Conforms(c.tag, resp, r)
    ensures !Fetch(c.tag, resp).failed ==> Poll(c, resp).stored == Some(r.body)
    ensures Fetch(c.tag, resp).failed ==> Poll(c, resp) == c
  {
  }

  /** The tag keeps naming the body, except exactly after an untagged change. */
  lemma TagKeptIff<T>(bodyOf: string -> T, c: Client<T>, resp: Response<T>, r: Resource<T>)
    requires TagNamesBody(bodyOf, c) && Names(bodyOf, r) && Conforms(c.tag, resp, r)
    ensures TagNamesBody(bodyOf, Poll(c, resp)) <==> !UntaggedChange(c, resp)
  {
  }

  /** One exchange of a run: the answer, and what the panel served then. */
  datatype Exchange<+T> = Exchange(resp: Response<T>, served: Resource<T>)

  function After<T>(polls: seq<Exchange<T>>): Client<T> {
    if polls == [] then Client("", None) else Poll(After(polls[..|polls| - 1]), polls[|polls| - 1].resp)
  }

  /** A run against a conforming panel. */
  predicate Conforming<T(==)>(bodyOf: string -> T, polls: seq<Exchange<T>>) {
    polls != [] ==>
      var init, last := polls[..|polls| - 1], polls[|polls| - 1];
      Conforming(bodyOf, init) && Names(bodyOf, last.served) && Conforms(After(init).tag, last.resp, last.served)
  }

  /** The last document received came without an ETag and is not what the tag still held names. */
  predicate Misled<T(==)>(bodyOf: string -> T, polls: seq<Exchange<T>>) {
    polls != [] &&
    var init, last := polls[..|polls| - 1], polls[|polls| - 1];
    match last.resp
    case Document(header, body) => header == "" && After(init).tag != "" && body != bodyOf(After(init).tag)
    case _ => Misled(bodyOf, init)
  }

  /** A tag is only ever held together with a body. */
  lemma {:induction false} TagImpliesBody<T>(bodyOf: string -> T, polls: seq<Exchange<T>>)
    requires Conforming(bodyOf, polls)
    ensures After(polls).tag != "" ==> After(polls).stored.Some?
  {
    if polls != [] {
      TagImpliesBody(bodyOf, polls[..|polls| - 1]);
    }
  }

  /** Whatever the panel answers, a tag is held without a body exactly if no document came but a 304 that brought a tag. */
  lemma {:induction false} BareTagIff<T>(polls: seq<Exchange<T>>)
    ensures After(polls).stored.None? <==> forall i | 0 <= i < |polls| :: !polls[i].resp.Document?
    ensures After(polls).stored.None? ==>
              (After(polls).tag != "" <==> exists i :: 0 <= i < |polls| && polls[i].resp.NotModified? && polls[i].resp.header != "")
  {
    if polls != [] {
      var init, n := polls[..|polls| - 1], |polls| - 1;
      BareTagIff(init);
      assert forall i | 0 <= i < n :: init[i] == polls[i];
    }
  }

  /**
   Over a whole run, across errors, 304s and missing headers. The tag names the stored body exactly unless the
   last document received misled the poller, and any tagged document mends that. A poll that succeeds leaves
   the panel's current body exactly if it brought a document or the poller was not misled before.
   */
  lemma {:induction false} RunAgreesIff<T>(bodyOf: string -> T, polls: seq<Exchange<T>>)
    requires Conforming(bodyOf, polls)
    ensures TagNamesBody(bodyOf, After(polls)) <==> !Misled(bodyOf, polls)
    ensures polls != [] ==>
              var init, last := polls[..|polls| - 1], polls[|polls| - 1];
              !Fetch(After(init).tag, last.resp).failed ==>
                (After(polls).stored == Some(last.served.body) <==> last.resp.Document? || !Misled(bodyOf, init))
  {
    if polls != [] {
      RunAgreesIff(bodyOf, polls[..|polls| - 1]);
    }
  }

  /** After an untagged change, the panel returning to an older version leaves the client with the wrong body. */
  lemma UntaggedChangeMisleads<T>(bodyOf: string -> T, other: T)
    requires bodyOf("a") != other
    ensures exists polls: seq<Exchange<T>> ::
              && Conforming(bodyOf, polls) && |polls| == 3 && polls[2].resp == NotModified("a")
              && After(polls).stored == Some(other) && polls[2].served.body == bodyOf("a")
  {
    var first, changed := Resource(bodyOf("a"), "a"), Resource(other, "");
    var p1 := [Exchange(Document("a", bodyOf("a")), first)];
    var p2 := p1 + [Exchange(Document("", other), changed)];
    var p3 := p2 + [Exchange(NotModified("a"), first)];
    assert p1[..0] == [] && p2[..1] == p1 && p3[..2] == p2;
    assert After(p1) == Client("a", Some(bodyOf("a")));
    assert After(p2) == Client("a", Some(other));
    assert Conforming(bodyOf, p1);
    assert Conforming(bodyOf, p2);
    assert Conforming(bodyOf, p3);
  }
}
