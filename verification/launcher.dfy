/**
 The container launcher (`CreateContainer` and `StartContainer`): guard
 the arguments, POST the creation payload, on 201 extract the identifier,
 POST the start request, report `true` on 204. Every exception is caught
 and reported as `false`.

 The engine is not modelled: its replies are an input (`Engine`), and the
 result carries the trace of requests the launcher issued.
 */
module Launcher {
  import opened Values
  import Formatting
  import Payload
  import Lines
  import Splitting
  import ContainerId

  /** The body of a request: none, or the creation payload built from an
      image name, whose text is `Payload.CreatePayload(image)`. */
  datatype Body = NoBody | PayloadFor(image: string)

  /** A POST request and its body. */
  datatype Request = Post(url: string, body: Body)

  /** The text the launcher writes as the body of a request, if any. */
  function BodyText(b: Body): Option<string> {
    match b
    case NoBody => None
    case PayloadFor(image) => Some(Payload.CreatePayload(image))
  }

  /** What the engine does with the creation request: the round trip throws
      (refused connection, I/O error, malformed URL), or it answers with a
      status code and a response stream. */
  datatype CreateReply = CreateFails | CreateAnswered(code: int, stream: ContainerId.BodyStream)

  /** What the engine does with the start request. */
  datatype StartReply = StartFails | StartAnswered(code: int)

  /** The engine's behaviour for one launch. */
  datatype Engine = Engine(create: CreateReply, start: StartReply)

  /** The boolean `CreateContainer` returns and the requests it issued. */
  datatype Launch = Launch(started: bool, trace: seq<Request>)

  /** `StartContainer`'s outcome (a boolean or an exception) and its request. */
  datatype StartResult = StartResult(outcome: Try<bool>, request: Request)

  /** `String.format("http://%s/containers/%s", ipAddress, "create")`. */
  function CreateUrl(host: string): (u: string)
    ensures u == "http://" + host + "/containers/create"
  {
    Formatting.FormatTwo("http://", "/containers/", NonNull(host), NonNull("create"))
  }

  /** `String.format("http://%s/containers/%s/%s", ipAddress, containerId, "start")`:
      a null identifier is written as `null`. */
  function StartUrl(host: string, id: JString): (u: string)
    ensures u == "http://" + host + "/containers/" + Render(id) + "/start"
  {
    Formatting.FormatThree("http://", "/containers/", "/", NonNull(host), id, NonNull("start"))
  }

  /** `StartContainer(ipAddress, containerId)`: one POST without a body;
      `true` on 204, `false` on any other code, and the exception passed on
      when the round trip throws. */
  function StartContainer(host: string, id: JString, reply: StartReply): (r: StartResult)
    ensures r.request == Post("http://" + host + "/containers/" + Render(id) + "/start", NoBody)
    ensures r.outcome == Returned(true) <==> reply == StartAnswered(204)
    ensures r.outcome == Threw <==> reply == StartFails
  {
    var request := Post(StartUrl(host, id), NoBody);
    match reply
    case StartFails => StartResult(Threw, request)
    case StartAnswered(code) => StartResult(Returned(code == 204), request)
  }

  /** `CreateContainer(ipAddress, image)`. A null host or image throws before
      any request; the empty string is not rejected. */
  function CreateContainer(host: JString, image: JString, engine: Engine): (r: Launch)
    ensures host.Null? || image.Null? ==> r == Launch(false, [])
    ensures r.started <==>
      && host.NonNull? && image.NonNull?
      && engine.create.CreateAnswered? && engine.create.code == 201
      && ContainerId.GetContainerId(engine.create.stream).Returned?
      && engine.start == StartAnswered(204)
    ensures host.NonNull? && image.NonNull? ==>
      && 1 <= |r.trace| <= 2
      && r.trace[0] == Post("http://" + host.value + "/containers/create",
                            PayloadFor(image.value))
    ensures |r.trace| == 2 <==>
      && host.NonNull? && image.NonNull?
      && engine.create.CreateAnswered? && engine.create.code == 201
      && ContainerId.GetContainerId(engine.create.stream).Returned?
    ensures |r.trace| == 2 ==>
      r.trace[1] == Post("http://" + host.value + "/containers/"
                         + Render(ContainerId.GetContainerId(engine.create.stream).value) + "/start", NoBody)
  {
    match (host, image)
    case (NonNull(h), NonNull(i)) =>
      var create := Post(CreateUrl(h), PayloadFor(i));
      (match engine.create
       case CreateFails => Launch(false, [create])
       case CreateAnswered(code, stream) =>
         if code != 201 then Launch(false, [create])
         else
           match ContainerId.GetContainerId(stream)
           case Threw => Launch(false, [create])
           case Returned(id) =>
             var start := StartContainer(h, id, engine.start);
             Launch(start.outcome == Returned(true), [create, start.request]))
    case _ => Launch(false, [])
  }

  /** Empty strings pass the guards: the creation request goes out, to a URL
      with an empty host part. */
  lemma EmptyArgumentsAreSent(host: string, image: string, engine: Engine)
    requires host == "" && image == ""
    ensures CreateContainer(NonNull(host), NonNull(image), engine).trace[0].url == "http:///containers/create"
  {
    assert "http://" + host + "/containers/create" == "http:///containers/create";
  }

  /** Any creation code other than 201 fails without a start request. */
  lemma {:induction false} OtherCreateCodeFails(host: string, image: string, code: int, stream: ContainerId.BodyStream, start: StartReply)
    requires code != 201
    ensures var r := CreateContainer(NonNull(host), NonNull(image), Engine(CreateAnswered(code, stream), start));
      !r.started && |r.trace| == 1
  {
  }

  /** A `null` identifier is not caught: the start request goes to the
      container named `null`. */
  lemma NullIdIsStarted(host: string, image: string, stream: ContainerId.BodyStream, start: StartReply)
    requires ContainerId.GetContainerId(stream) == Returned(Null)
    ensures var r := CreateContainer(NonNull(host), NonNull(image), Engine(CreateAnswered(201, stream), start));
      |r.trace| == 2 && r.trace[1] == Post("http://" + host + "/containers/null/start", NoBody)
  {
    NullSegment(host);
  }

  lemma NullSegment(host: string)
    ensures "http://" + host + "/containers/" + Render(Null) + "/start" == "http://" + host + "/containers/null/start"
  {
    assert "/containers/" + "null" + "/start" == "/containers/null/start";
    assert "http://" + host + "/containers/" + "null" + "/start" == "http://" + host + ("/containers/" + "null" + "/start");
  }

  /** A reply without whitespace apart from line terminators, as a compact
      JSON object is, holds no ` = `, so the launcher starts the container
      named `null`, and the launch succeeds if the engine answers that
      request with 204. */
  lemma CompactReplyStartsNull(host: string, image: string, body: string)
    requires Splitting.NoSpace(Lines.StripTerminators(body))
    ensures var r := CreateContainer(NonNull(host), NonNull(image),
                       Engine(CreateAnswered(201, ContainerId.Body(body)), StartAnswered(204)));
      r.started && r.trace[1].url == "http://" + host + "/containers/null/start"
  {
    ContainerId.CompactBodyGivesNull(Lines.StripTerminators(body));
    NullSegment(host);
  }

  /** The reply a Docker engine sends to a creation request is such a reply. */
  lemma EngineReplyIsCompact(body: string)
    requires body == "{\"Id\":\"4fa6e0f0c678\",\"Warnings\":[]}"
    ensures Splitting.NoSpace(body) && Lines.NoTerminator(body)
  {
  }

  /** So a Docker engine's creation reply, `{"Id":"4fa6e0f0c678","Warnings":[]}`,
      with or without a final newline, has the launcher start the container
      named `null`, and report success if that request gets 204. */
  lemma EngineReplyStartsNull(host: string, image: string, reply: string, body: string)
    requires reply == "{\"Id\":\"4fa6e0f0c678\",\"Warnings\":[]}"
    requires body == reply || body == reply + "\n"
    ensures var r := CreateContainer(NonNull(host), NonNull(image),
                       Engine(CreateAnswered(201, ContainerId.Body(body)), StartAnswered(204)));
      r.started && r.trace[1].url == "http://" + host + "/containers/null/start"
  {
    EngineReplyIsCompact(reply);
    Lines.StripKeeps(reply);
    Lines.StripAppend(reply, "\n");
    assert Lines.StripTerminators("\n") == "";
    assert Lines.StripTerminators(body) == reply;
    CompactReplyStartsNull(host, image, body);
  }

  /** A creation reply laid out as the extraction expects starts the
      container it names. */
  lemma CanonicalReplyStartsThatContainer(host: string, image: string, key: string, id: string, rest: string, start: StartReply)
    requires Splitting.NoSpace(key) && Splitting.NoSpace(id) && id != "" && id[0] != '\\'
    ensures var body := key + " = " + id + " \\u0026 " + rest;
      var r := CreateContainer(NonNull(host), NonNull(image), Engine(CreateAnswered(201, ContainerId.Body(body)), start));
      |r.trace| == 2 && r.trace[1] == Post("http://" + host + "/containers/" + id + "/start", NoBody)
      && (r.started <==> start == StartAnswered(204))
  {
    ContainerId.CanonicalReply(key, id, rest);
  }

  /** The launcher with an identifier check: a launch without an
      identifier is evidently meant to fail, so a `null` identifier fails it
      instead of starting the container named `null`. */
  function CreateContainerGuarded(host: JString, image: JString, engine: Engine): (r: Launch)
    ensures |r.trace| == 2 ==>
      && host.NonNull?
      && engine.create.CreateAnswered?
      && ContainerId.GetContainerId(engine.create.stream).Returned?
      && ContainerId.GetContainerId(engine.create.stream).value.NonNull?
      && r.trace[1].url == "http://" + host.value + "/containers/"
                           + ContainerId.GetContainerId(engine.create.stream).value.value + "/start"
    ensures r.started <==>
      && host.NonNull? && image.NonNull?
      && engine.create.CreateAnswered? && engine.create.code == 201
      && ContainerId.GetContainerId(engine.create.stream).Returned?
      && ContainerId.GetContainerId(engine.create.stream).value.NonNull?
      && engine.start == StartAnswered(204)
  {
    var r := CreateContainer(host, image, engine);
    if |r.trace| == 2 && ContainerId.GetContainerId(engine.create.stream) == Returned(Null)
    then Launch(false, r.trace[..1])
    else r
  }

  /** With the check, a reply without an identifier issues no start request. */
  lemma GuardedNullIdNotStarted(host: string, image: string, stream: ContainerId.BodyStream, start: StartReply)
    requires ContainerId.GetContainerId(stream) == Returned(Null)
    ensures var r := CreateContainerGuarded(NonNull(host), NonNull(image), Engine(CreateAnswered(201, stream), start));
      !r.started && |r.trace| == 1
  {
  }
}
