/** The probe's HTTP handler: a pure mapping from one status snapshot to a
    response record (status code, content type, body). */
module Handler {
  import opened Probe

  /** HTTP status codes the handler uses (section 15.3.1 and 15.6.1 of RFC 9110). */
  const StatusOK: int := 200
  const StatusInternalServerError: int := 500

  /** The content type every response carries. */
  const TextPlain: string := "text/plain"

  /** What the handler writes: status code, Content-Type header and body.
      The body is the message text itself; Go's conversion of a string to
      bytes keeps the underlying bytes as they are. */
  datatype Response = Response(code: int, contentType: string, body: string)

  /** Maps a snapshot to its response: 200 exactly when healthy, 500 exactly
      when not, a text/plain content type, and the message as the body. */
  function Render(s: Status): (r: Response)
    ensures r.code == StatusOK <==> s.healthy
    ensures r.code == StatusInternalServerError <==> !s.healthy
    ensures r.contentType == TextPlain
    ensures r.body == s.message
  {
    Response(if s.healthy then StatusOK else StatusInternalServerError, TextPlain, s.message)
  }

  /** How a client reads a response back as a status: healthy when the code is
      200, with the body as the message. */
  function Interpret(r: Response): (s: Status)
  {
    Status(r.code == StatusOK, r.body)
  }

  /** Rendering loses nothing: the response reads back as the very snapshot
      it was rendered from. */
  lemma RenderRoundTrip(s: Status)
    ensures Interpret(Render(s)) == s
  {
  }

  /** Distinct snapshots render to distinct responses. */
  lemma RenderInjective(s: Status, s': Status)
    requires Render(s) == Render(s')
    ensures s == s'
  {
    RenderRoundTrip(s);
    RenderRoundTrip(s');
  }

  /** One invocation of the handler on a probe: a single read, rendered.
      Code and body therefore describe one and the same snapshot. */
  function Serve(p: State): (r: Response)
    ensures Interpret(r) == Read(p)
    ensures r.code == StatusOK <==> Read(p).healthy
    ensures r.code == StatusInternalServerError <==> !Read(p).healthy
    ensures r.contentType == TextPlain
    ensures r.body == Read(p).message
  {
    Render(Read(p))
  }

  /** A freshly constructed probe answers 200 with an empty text/plain body. */
  lemma ServeNew()
    ensures Serve(New()) == Response(StatusOK, TextPlain, "")
  {
  }
}
