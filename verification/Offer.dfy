/** The whole text of a session description, and what reading it back as an answer makes of it. */
module Offers {
  import opened Octets
  import opened Text
  import opened Sdp
  import B = PeerConnections

  /** A feedback parameter or a codec parameter is a name with a value. */
  type Param = (string, string)

  datatype Codec = Codec(id: nat, name: string, clockrate: nat, channels: nat, feedback: seq<Param>, params: seq<Param>)

  /** `host` is the text of the address, or the configured one when the address is private. */
  datatype Candidate = Candidate(foundation: string, component: nat, protocol: string, priority: nat, host: string,
                                 port: nat, typ: string)

  datatype Role = NoRole | Active | Passive | Actpass | Holdconn

  datatype Direction = SendRecv | SendOnly | RecvOnly | Inactive

  datatype Credentials = Credentials(ufrag: string, pwd: string, fingerprint: Option<(string, string)>, role: Role)

  datatype Section = Section(codecs: seq<Codec>, candidates: seq<Candidate>, credentials: Option<Credentials>,
                             direction: Direction, rtcpMux: bool, tracks: seq<Track>)

  /** An offer has the audio content first. */
  datatype Description = Description(bundle: Option<seq<string>>, audio: Option<Section>, video: Option<Section>)

  // ---- Printing ---------------------------------------------------------------------------------------

  function RoleText(r: Role): string {
    match r
    case NoRole => "none"
    case Active => "active"
    case Passive => "passive"
    case Actpass => "actpass"
    case Holdconn => "holdconn"
  }

  function DirectionText(d: Direction): string {
    match d
    case SendRecv => "sendrecv"
    case SendOnly => "sendonly"
    case RecvOnly => "recvonly"
    case Inactive => "inactive"
  }

  function Words(names: seq<string>): string {
    if names == [] then "" else Words(names[..|names| - 1]) + " " + names[|names| - 1]
  }

  function Formats(codecs: seq<Codec>): string {
    if codecs == [] then "" else Formats(codecs[..|codecs| - 1]) + " " + Decimal(codecs[|codecs| - 1].id)
  }

  function MediaRest(codecs: seq<Codec>): string {
    "9 UDP/TLS/RTP/SAVPF" + Formats(codecs)
  }

  function CandidateLine(c: Candidate): string {
    "a=candidate:" + c.foundation + " " + Decimal(c.component) + " " + c.protocol + " " + Decimal(c.priority)
    + " " + c.host + " " + Decimal(c.port) + " typ " + c.typ
  }

  function CandidateLines(candidates: seq<Candidate>): seq<string> {
    if candidates == [] then []
    else CandidateLines(candidates[..|candidates| - 1]) + [CandidateLine(candidates[|candidates| - 1])]
  }

  function FeedbackLine(id: nat, p: Param): string {
    "a=rtcp-fb:" + Decimal(id) + " " + p.0 + if p.1 == "" then "" else " " + p.1
  }

  function FeedbackLines(id: nat, feedback: seq<Param>): seq<string> {
    if feedback == [] then []
    else FeedbackLines(id, feedback[..|feedback| - 1]) + [FeedbackLine(id, feedback[|feedback| - 1])]
  }

  function ParamText(params: seq<Param>): string {
    if params == [] then ""
    else
      var last := params[|params| - 1];
      ParamText(params[..|params| - 1]) + ";" + last.0 + "=" + last.1
  }

  function FormatLine(c: Codec): string
    requires c.params != []
  {
    "a=fmtp:" + Decimal(c.id) + " " + ParamText(c.params)[1..]
  }

  function MapLine(c: Codec, audio: bool): string {
    "a=rtpmap:" + Decimal(c.id) + " " + c.name + "/" + Decimal(c.clockrate)
    + if audio then "/" + Decimal(c.channels) else ""
  }

  function CodecLines(c: Codec, audio: bool): seq<string> {
    [MapLine(c, audio)] + FeedbackLines(c.id, c.feedback) + if c.params == [] then [] else [FormatLine(c)]
  }

  function CodecsLines(codecs: seq<Codec>, audio: bool): seq<string> {
    if codecs == [] then []
    else CodecsLines(codecs[..|codecs| - 1], audio) + CodecLines(codecs[|codecs| - 1], audio)
  }

  function CredentialLines(credentials: Option<Credentials>): seq<string> {
    match credentials
    case None => []
    case Some(c) =>
      ["a=ice-ufrag:" + c.ufrag, "a=ice-pwd:" + c.pwd]
      + match c.fingerprint
        case None => []
        case Some((alg, digest)) => ["a=fingerprint:" + alg + " " + digest, "a=setup:" + RoleText(c.role)]
  }

  function Mid(audio: bool): string {
    if audio then "audio" else "video"
  }

  function Prelude(s: Section): seq<string> {
    ["c=IN IP4 0.0.0.0", "a=rtcp:9 IN IP4 0.0.0.0"] + CandidateLines(s.candidates)
  }

  function Middle(s: Section, audio: bool): seq<string> {
    ["a=mid:" + Mid(audio), "a=" + DirectionText(s.direction)] + (if s.rtcpMux then ["a=rtcp-mux"] else [])
    + CodecsLines(s.codecs, audio)
  }

  /** The lines behind the media line. */
  function BodyLines(s: Section, audio: bool): seq<string> {
    Prelude(s) + CredentialLines(s.credentials) + Middle(s, audio) + TracksLines(s.tracks)
  }

  function SectionLines(s: Section, audio: bool): seq<string> {
    ["m=" + Mid(audio) + " " + MediaRest(s.codecs)] + BodyLines(s, audio)
  }

  function SectionsLines(s: Option<Section>, audio: bool): seq<string> {
    if s == None then [] else SectionLines(s.value, audio)
  }

  function HeaderLines(bundle: Option<seq<string>>): seq<string> {
    ["v=0", "o=- 0 2 IN IP4 127.0.0.1", "s=-", "t=0 0"]
    + (if bundle == None then [] else ["a=group:BUNDLE" + Words(bundle.value)]) + ["a=msid-semantic: WMS"]
  }

  /** `to_string`. */
  function DescriptionLines(d: Description): seq<string> {
    HeaderLines(d.bundle) + SectionsLines(d.audio, true) + SectionsLines(d.video, false)
  }

  // ---- What can be printed ----------------------------------------------------------------------------

  /** Text without the delimiters of lines and of attributes. */
  predicate Flat(s: string) {
    forall i :: 0 <= i < |s| ==> s[i] != '=' && s[i] != '\n'
  }

  predicate FlatCandidate(c: Candidate) {
    Flat(c.foundation) && Flat(c.protocol) && Flat(c.host) && Flat(c.typ)
  }

  /** A parameter name that ends in `a` or `m` would make its line look like an attribute or a media line. */
  predicate FlatParam(p: Param) {
    Flat(p.0) && Flat(p.1) && p.0 != "" && p.0[|p.0| - 1] != 'a' && p.0[|p.0| - 1] != 'm'
  }

  predicate FlatCodec(c: Codec) {
    && Flat(c.name)
    && (forall i :: 0 <= i < |c.feedback| ==> Flat(c.feedback[i].0) && Flat(c.feedback[i].1))
    && (forall i :: 0 <= i < |c.params| ==> FlatParam(c.params[i]))
  }

  predicate PlainCredentials(c: Credentials, valid: Fingerprints) {
    && Plain(c.ufrag) && Plain(c.pwd)
    && match c.fingerprint
       case None => true
       case Some((alg, digest)) => Plain(alg) && PlainDigest(digest) && valid(Lower(alg), digest)
  }

  predicate PrintableSection(s: Section, valid: Fingerprints) {
    && (forall i :: 0 <= i < |s.codecs| ==> FlatCodec(s.codecs[i]))
    && (forall i :: 0 <= i < |s.candidates| ==> FlatCandidate(s.candidates[i]))
    && (s.credentials.Some? ==> PlainCredentials(s.credentials.value, valid))
    && AllPrintable(s.tracks) && forall i :: 0 <= i < |s.tracks| ==> OnOneLine(s.tracks[i])
  }

  predicate PrintableDescription(d: Description, valid: Fingerprints) {
    && (d.bundle.Some? ==> forall i :: 0 <= i < |d.bundle.value| ==> Flat(d.bundle.value[i]))
    && (d.audio.Some? ==> PrintableSection(d.audio.value, valid))
    && (d.video.Some? ==> PrintableSection(d.video.value, valid))
  }

  // ---- Lines that say nothing to the reader -------------------------------------------------------------

  predicate Inert(line: string) {
    && NotMedia(line)
    && !Contains(line, "a=ice-ufrag") && !Contains(line, "a=ice-pwd") && !Contains(line, "a=fingerprint")
    && !Contains(line, "a=ssrc:") && !Contains(line, "a=ssrc-group:")
  }

  predicate AllInert(lines: seq<string>) {
    forall i :: 0 <= i < |lines| ==> Inert(lines[i]) && Lacks(lines[i], '\n')
  }

  /** Every equals sign is the second character or stands behind a harmless one. */
  predicate Quiet(line: string) {
    && (forall i :: 0 < i < |line| && line[i] == '=' ==> i == 1 || (line[i - 1] != 'a' && line[i - 1] != 'm'))
    && (line != "" ==> line[0] != 'm')
    && (|line| >= 4 && line[0] == 'a' ==> Other(line[2], line[3]))
  }

  /** No attribute the reader looks for begins with these. */
  predicate Other(c: char, d: char) {
    !(c == 'i' && d == 'c') && !(c == 'f' && d == 'i') && !(c == 's' && d == 's')
  }

  lemma QuietIsInert(line: string)
    requires Quiet(line) && Lacks(line, '\n')
    ensures AllInert([line])
  {
    OnlyInFront(line, "m=");
    OnlyInFront(line, "a=ice-ufrag");
    OnlyInFront(line, "a=ice-pwd");
    OnlyInFront(line, "a=fingerprint");
    OnlyInFront(line, "a=ssrc:");
    OnlyInFront(line, "a=ssrc-group:");
    assert "a=ice-ufrag"[2] == 'i' && "a=ice-ufrag"[3] == 'c' && "a=ice-pwd"[2] == 'i' && "a=ice-pwd"[3] == 'c';
    assert "a=fingerprint"[2] == 'f' && "a=fingerprint"[3] == 'i' && "a=ssrc:"[2] == 's' && "a=ssrc:"[3] == 's';
    assert "a=ssrc-group:"[2] == 's' && "a=ssrc-group:"[3] == 's';
  }

  lemma OnlyInFront(line: string, pattern: string)
    requires Quiet(line) && |pattern| >= 2 && pattern[1] == '=' && (pattern[0] == 'a' || pattern[0] == 'm')
    ensures Contains(line, pattern) ==> pattern[0] == 'a' && pattern <= line
  {
    if i :| 0 <= i <= |line| && StandsAt(line, pattern, i) {
      var part := line[i..i + |pattern|];
      assert line[i] == part[0] && line[i + 1] == part[1];
    }
  }

  /** An attribute that does not begin like one the reader looks for, with flat text behind. */
  predicate FlatAttribute(line: string) {
    && |line| >= 4 && line[0] == 'a' && line[1] == '=' && Other(line[2], line[3])
    && forall i :: 2 <= i < |line| ==> line[i] != '=' && line[i] != '\n'
  }

  lemma FlatIsInert(line: string)
    requires FlatAttribute(line)
    ensures AllInert([line])
  {
    QuietIsInert(line);
  }

  lemma FlatAppend(a: string, b: string)
    ensures Flat(a + b) <==> Flat(a) && Flat(b)
  {
    var c := a + b;
    assert forall i :: 0 <= i < |a| ==> c[i] == a[i];
    assert forall i :: 0 <= i < |b| ==> c[|a| + i] == b[i];
  }

  lemma DecimalFlat(n: nat)
    ensures Flat(Decimal(n))
  {
    DecimalLacks(n, '=');
    DecimalLacks(n, '\n');
  }

  lemma InertAppend(a: seq<string>, b: seq<string>)
    ensures AllInert(a + b) <==> AllInert(a) && AllInert(b)
  {
    hide Inert, Lacks;
    var c := a + b;
    assert forall i :: 0 <= i < |a| ==> c[i] == a[i];
    assert forall i :: 0 <= i < |b| ==> c[|a| + i] == b[i];
  }

  lemma InertLineReads(a: Answer, line: string)
    requires Inert(line)
    ensures LineAfter(a, line) == Some(a)
  {
    hide Contains;
  }

  lemma {:induction false} InertLinesRead(a: Answer, lines: seq<string>)
    requires AllInert(lines)
    ensures LinesAfter(a, lines) == Some(a)
  {
    hide Inert, LineAfter, Lacks;
    if lines != [] {
      InertLinesRead(a, lines[..|lines| - 1]);
      InertLineReads(a, lines[|lines| - 1]);
    }
  }

  // ---- Which of the printed lines those are -------------------------------------------------------------

  lemma CandidateInert(c: Candidate)
    requires FlatCandidate(c)
    ensures AllInert([CandidateLine(c)])
  {
    hide AllInert, Decimal;
    DecimalFlat(c.component);
    DecimalFlat(c.priority);
    DecimalFlat(c.port);
    FlatIsInert(CandidateLine(c));
  }

  lemma {:induction false} CandidatesInert(candidates: seq<Candidate>)
    requires forall i :: 0 <= i < |candidates| ==> FlatCandidate(candidates[i])
    ensures AllInert(CandidateLines(candidates))
  {
    hide FlatCandidate, CandidateLine, Inert, Lacks;
    if candidates != [] {
      var before, last := candidates[..|candidates| - 1], candidates[|candidates| - 1];
      CandidatesInert(before);
      CandidateInert(last);
      InertAppend(CandidateLines(before), [CandidateLine(last)]);
    }
  }

  lemma MapInert(c: Codec, audio: bool)
    requires Flat(c.name)
    ensures AllInert([MapLine(c, audio)])
  {
    DecimalFlat(c.id);
    DecimalFlat(c.clockrate);
    DecimalFlat(c.channels);
    FlatIsInert(MapLine(c, audio));
  }

  lemma FeedbackInert(id: nat, p: Param)
    requires Flat(p.0) && Flat(p.1)
    ensures AllInert([FeedbackLine(id, p)])
  {
    DecimalFlat(id);
    FlatIsInert(FeedbackLine(id, p));
  }

  lemma {:induction false} FeedbacksInert(id: nat, feedback: seq<Param>)
    requires forall i :: 0 <= i < |feedback| ==> Flat(feedback[i].0) && Flat(feedback[i].1)
    ensures AllInert(FeedbackLines(id, feedback))
  {
    hide Flat, FeedbackLine, Inert, Lacks;
    if feedback != [] {
      var before, last := feedback[..|feedback| - 1], feedback[|feedback| - 1];
      FeedbacksInert(id, before);
      FeedbackInert(id, last);
      InertAppend(FeedbackLines(id, before), [FeedbackLine(id, last)]);
    }
  }

  /** Behind whatever stands in front, the equals signs of parameters are harmless. */
  predicate Harmless(s: string) {
    forall i :: 0 <= i < |s| ==>
      s[i] != '\n' && (i == 0 ==> s[i] == ';') && (s[i] == '=' ==> s[i - 1] != 'a' && s[i - 1] != 'm')
  }

  lemma {:induction false} ParamsHarmless(params: seq<Param>)
    requires forall i :: 0 <= i < |params| ==> FlatParam(params[i])
    ensures Harmless(ParamText(params))
  {
    if params != [] {
      ParamsHarmless(params[..|params| - 1]);
    }
  }

  lemma FormatInert(c: Codec)
    requires c.params != [] && forall i :: 0 <= i < |c.params| ==> FlatParam(c.params[i])
    ensures AllInert([FormatLine(c)])
  {
    ParamsHarmless(c.params);
    DecimalFlat(c.id);
    hide FlatParam, ParamText, Decimal;
    HarmlessInert(Decimal(c.id), ParamText(c.params));
  }

  lemma HarmlessInert(id: string, params: string)
    requires Flat(id) && Harmless(params) && |params| >= 2
    ensures var line := "a=fmtp:" + id + " " + params[1..];
            AllInert([line])
  {
    var front := "a=fmtp:" + id + " ";
    var line := front + params[1..];
    assert front[|front| - 1] == ' ';
    assert forall i :: 7 <= i < |front| - 1 ==> front[i] == id[i - 7];
    assert forall i :: 0 <= i < |front| ==> line[i] == front[i];
    assert forall i :: |front| <= i < |line| ==> line[i] == params[i - |front| + 1];
    QuietIsInert(line);
  }

  lemma CodecInert(c: Codec, audio: bool)
    requires FlatCodec(c)
    ensures AllInert(CodecLines(c, audio))
  {
    MapInert(c, audio);
    FeedbacksInert(c.id, c.feedback);
    if c.params != [] {
      FormatInert(c);
    }
    hide Inert, MapLine, FormatLine, FeedbackLines, Lacks;
    InertAppend([MapLine(c, audio)], FeedbackLines(c.id, c.feedback));
    InertAppend([MapLine(c, audio)] + FeedbackLines(c.id, c.feedback), if c.params == [] then [] else [FormatLine(c)]);
  }

  lemma {:induction false} CodecsInert(codecs: seq<Codec>, audio: bool)
    requires forall i :: 0 <= i < |codecs| ==> FlatCodec(codecs[i])
    ensures AllInert(CodecsLines(codecs, audio))
  {
    assert AllInert([]);
    hide FlatCodec, Inert, CodecLines, AllInert;
    if codecs != [] {
      CodecsInert(codecs[..|codecs| - 1], audio);
      CodecInert(codecs[|codecs| - 1], audio);
      InertAppend(CodecsLines(codecs[..|codecs| - 1], audio), CodecLines(codecs[|codecs| - 1], audio));
    }
  }

  lemma AddressInert()
    ensures AllInert(["c=IN IP4 0.0.0.0", "a=rtcp:9 IN IP4 0.0.0.0"])
  {
    var c, a := "c=IN IP4 0.0.0.0", "a=rtcp:9 IN IP4 0.0.0.0";
    assert Quiet(c) && Lacks(c, '\n') && FlatAttribute(a);
    hide Quiet, Lacks, FlatAttribute, AllInert;
    QuietIsInert(c);
    FlatIsInert(a);
    InertAppend([c], [a]);
    assert [c] + [a] == [c, a];
  }

  lemma MidInert(audio: bool)
    ensures AllInert(["a=mid:" + Mid(audio)])
  {
    FlatIsInert("a=mid:" + Mid(audio));
  }

  lemma DirectionInert(d: Direction)
    ensures AllInert(["a=" + DirectionText(d)])
  {
    FlatIsInert("a=" + DirectionText(d));
  }

  lemma SetupInert(r: Role)
    ensures AllInert(["a=setup:" + RoleText(r)])
  {
    FlatIsInert("a=setup:" + RoleText(r));
  }

  lemma PreludeInert(s: Section)
    requires forall i :: 0 <= i < |s.candidates| ==> FlatCandidate(s.candidates[i])
    ensures AllInert(Prelude(s))
  {
    hide FlatCandidate, CandidateLines, AllInert;
    AddressInert();
    CandidatesInert(s.candidates);
    InertAppend(["c=IN IP4 0.0.0.0", "a=rtcp:9 IN IP4 0.0.0.0"], CandidateLines(s.candidates));
  }

  lemma MiddleInert(s: Section, audio: bool)
    requires forall i :: 0 <= i < |s.codecs| ==> FlatCodec(s.codecs[i])
    ensures AllInert(Middle(s, audio))
  {
    assert AllInert([]) && FlatAttribute("a=rtcp-mux");
    hide FlatCodec, CodecsLines, Mid, DirectionText, AllInert, FlatAttribute;
    MidInert(audio);
    DirectionInert(s.direction);
    FlatIsInert("a=rtcp-mux");
    CodecsInert(s.codecs, audio);
    InertAppend(["a=mid:" + Mid(audio)], ["a=" + DirectionText(s.direction)]);
    var front := ["a=mid:" + Mid(audio), "a=" + DirectionText(s.direction)];
    assert ["a=mid:" + Mid(audio)] + ["a=" + DirectionText(s.direction)] == front;
    var mux := if s.rtcpMux then ["a=rtcp-mux"] else [];
    InertAppend(front, mux);
    InertAppend(front + mux, CodecsLines(s.codecs, audio));
  }

  // ---- Reading a section back ---------------------------------------------------------------------------

  /** What the reader has of a medium's credentials after its section. */
  function TransportOf(credentials: Option<Credentials>): Transport {
    match credentials
    case None => NO_TRANSPORT
    case Some(c) =>
      Transport(c.ufrag, c.pwd, match c.fingerprint
                                case None => None
                                case Some((alg, digest)) => Some((Lower(alg), digest)))
  }

  lemma TwoLinesRead(a: Answer, ufrag: string, pwd: string)
    requires a.media == "video" && Plain(ufrag) && Plain(pwd)
    ensures var lines := ["a=ice-ufrag:" + ufrag, "a=ice-pwd:" + pwd];
            && LinesAfter(a, lines) == Some(a.(videoTransport := a.videoTransport.(ufrag := ufrag, pwd := pwd)))
            && NoBreaks(lines)
  {
    hide TransportAfter, LineAfter;
    var td := a.videoTransport;
    var b := a.(videoTransport := td.(ufrag := ufrag));
    UfragReads(td, ufrag, a.valid);
    PwdReads(b.videoTransport, pwd, a.valid);
    TransportRests(ufrag, pwd, "", "");
    LacksAppend("a=ice-ufrag:", ufrag, '\n');
    LacksAppend("a=ice-pwd:", pwd, '\n');
    var lines := ["a=ice-ufrag:" + ufrag, "a=ice-pwd:" + pwd];
    hide Lacks, Plain;
    TransportLineReads(a, "ice-ufrag:" + ufrag, b.videoTransport);
    TransportLineReads(b, "ice-pwd:" + pwd, td.(ufrag := ufrag, pwd := pwd));
    assert lines[..1] == [lines[0]];
    OneLine(a, lines[0]);
  }

  lemma CredentialsRead(a: Answer, credentials: Option<Credentials>)
    requires a.media == "video" && a.videoTransport == NO_TRANSPORT
    requires credentials.Some? ==> PlainCredentials(credentials.value, a.valid)
    ensures LinesAfter(a, CredentialLines(credentials)) == Some(a.(videoTransport := TransportOf(credentials)))
    ensures NoBreaks(CredentialLines(credentials))
  {
    if credentials.Some? {
      var c := credentials.value;
      match c.fingerprint {
        case None => TwoLinesRead(a, c.ufrag, c.pwd);
        case Some((alg, digest)) => FourLinesRead(a, c, alg, digest);
      }
    }
  }

  lemma FourLinesRead(a: Answer, c: Credentials, alg: string, digest: string)
    requires a.media == "video" && c.fingerprint == Some((alg, digest)) && PlainCredentials(c, a.valid)
    ensures LinesAfter(a, CredentialLines(Some(c))) == Some(a.(videoTransport := TransportOf(Some(c))))
    ensures NoBreaks(CredentialLines(Some(c)))
  {
    hide LinesAfter, Inert, Lacks, Plain, PlainDigest, Lower, RoleText;
    var lines, setup := TransportLines(c.ufrag, c.pwd, alg, digest), ["a=setup:" + RoleText(c.role)];
    assert CredentialLines(Some(c)) == lines + setup;
    hide CredentialLines, TransportLines;
    TransportLinesRead(a, c.ufrag, c.pwd, alg, digest);
    TransportLinesUnbroken(c.ufrag, c.pwd, alg, digest);
    SetupInert(c.role);
    InertLinesRead(a.(videoTransport := TransportOf(Some(c))), setup);
    LinesAppend(a, lines, setup);
    NoBreaksAppend(lines, setup);
  }

  /** The lines behind a video media line. */
  lemma BodyReads(a: Answer, s: Section, audio: bool)
    requires a.media == "video" && a.video == [] && a.groups == [] && a.videoTransport == NO_TRANSPORT
    requires PrintableSection(s, a.valid)
    ensures LinesAfter(a, BodyLines(s, audio)) ==
            Some(a.(videoTransport := TransportOf(s.credentials), video := TracksInfos(s.tracks),
                    groups := TracksGroups(s.tracks)))
    ensures NoBreaks(BodyLines(s, audio))
  {
    PreludeInert(s);
    MiddleInert(s, audio);
    CredentialsRead(a, s.credentials);
    TracksLinesUnbroken(s.tracks);
    hide AllPrintable, OnOneLine, FlatCodec, FlatCandidate, PlainCredentials, LinesAfter, TracksLines, CredentialLines;
    var b := a.(videoTransport := TransportOf(s.credentials));
    hide TransportOf, Prelude, Middle;
    InertUnbroken(Prelude(s));
    InertUnbroken(Middle(s, audio));
    InertLinesRead(a, Prelude(s));
    InertLinesRead(b, Middle(s, audio));
    TracksLinesRead(b, s.tracks);
    assert [] + TracksGroups(s.tracks) == TracksGroups(s.tracks);
    hide NoBreaks, AllInert, TracksInfos, TracksGroups;
    var l1, l2 := Prelude(s), CredentialLines(s.credentials);
    LinesAppend(a, l1, l2);
    LinesAppend(a, l1 + l2, Middle(s, audio));
    LinesAppend(a, l1 + l2 + Middle(s, audio), TracksLines(s.tracks));
    NoBreaksAppend(l1, l2);
    NoBreaksAppend(l1 + l2, Middle(s, audio));
    NoBreaksAppend(l1 + l2 + Middle(s, audio), TracksLines(s.tracks));
  }

  lemma InertUnbroken(lines: seq<string>)
    requires AllInert(lines)
    ensures NoBreaks(lines)
  {
    hide Inert, Lacks;
  }

  // ---- The audio section is read like the video section, without its groups -------------------------------

  predicate AllKeepMedium(lines: seq<string>) {
    forall i :: 0 <= i < |lines| ==> NotMedia(lines[i])
  }

  /** The audio side of an answer in the place of the video side. */
  function AsVideo(a: Answer): Answer {
    a.(media := "video", video := a.audio, groups := [], videoTransport := a.audioTransport)
  }

  lemma AudioLineReads(a: Answer, v: Answer, line: string)
    requires a.media == "audio" && v.media == "video" && NotMedia(line)
    requires v.video == a.audio && v.videoTransport == a.audioTransport && v.valid == a.valid
    requires LineAfter(v, line).Some?
    ensures LineAfter(a, line) ==
            Some(a.(audio := LineAfter(v, line).value.video, audioTransport := LineAfter(v, line).value.videoTransport))
    ensures LineAfter(v, line).value.media == "video" && LineAfter(v, line).value.valid == v.valid
  {
    hide NotMedia, TransportAfter, SsrcInfoAfter, GroupInfoAfter;
  }

  /** What video lines do to the video side, audio lines do to the audio side. */
  lemma {:induction false} AudioMirrors(a: Answer, lines: seq<string>)
    requires a.media == "audio" && AllKeepMedium(lines) && LinesAfter(AsVideo(a), lines).Some?
    ensures var v := LinesAfter(AsVideo(a), lines).value;
            && LinesAfter(a, lines) == Some(a.(audio := v.video, audioTransport := v.videoTransport))
            && v.media == "video" && v.valid == a.valid
  {
    hide LineAfter, NotMedia;
    if lines != [] {
      var before := lines[..|lines| - 1];
      AudioMirrors(a, before);
      var v := LinesAfter(AsVideo(a), before).value;
      AudioLineReads(a.(audio := v.video, audioTransport := v.videoTransport), v, lines[|lines| - 1]);
    }
  }

  lemma KeepMediumAppend(a: seq<string>, b: seq<string>)
    ensures AllKeepMedium(a + b) <==> AllKeepMedium(a) && AllKeepMedium(b)
  {
    hide NotMedia;
    var c := a + b;
    assert forall i :: 0 <= i < |a| ==> c[i] == a[i];
    assert forall i :: 0 <= i < |b| ==> c[|a| + i] == b[i];
  }

  lemma AttributeNotMedia(rest: string)
    requires Lacks(rest, '=')
    ensures NotMedia("a=" + rest)
  {
    AttributeLine(rest);
  }

  lemma SsrcNotMedia(ssrc: uint32, attribute: string, value: string)
    requires Lacks(attribute, '=') && Lacks(value, '=')
    ensures NotMedia(SsrcLine(ssrc, attribute, value))
  {
    SsrcLineShape(ssrc, attribute, value);
    AttributeNotMedia(SsrcRest(ssrc, attribute, value));
  }

  lemma InfoLinesKeepMedium(t: Track, ssrc: uint32)
    requires WellNamed(t)
    ensures AllKeepMedium(InfoLines(t, ssrc))
  {
    assert Lacks("cname", '=') && Lacks("msid", '=') && Lacks("mslabel", '=') && Lacks("label", '=') && Lacks(" ", '=');
    LacksAppend(t.streamId, " ", '=');
    LacksAppend(t.streamId + " ", t.id, '=');
    hide Lacks, NotMedia, SsrcLine;
    SsrcNotMedia(ssrc, "cname", t.cname);
    SsrcNotMedia(ssrc, "msid", t.streamId + " " + t.id);
    SsrcNotMedia(ssrc, "mslabel", t.streamId);
    SsrcNotMedia(ssrc, "label", t.id);
  }

  lemma {:induction false} SsrcLinesKeepMedium(t: Track, ssrcs: seq<uint32>)
    requires WellNamed(t)
    ensures AllKeepMedium(SsrcLines(t, ssrcs))
  {
    hide WellNamed, NotMedia, InfoLines;
    if ssrcs != [] {
      SsrcLinesKeepMedium(t, ssrcs[..|ssrcs| - 1]);
      InfoLinesKeepMedium(t, ssrcs[|ssrcs| - 1]);
      KeepMediumAppend(SsrcLines(t, ssrcs[..|ssrcs| - 1]), InfoLines(t, ssrcs[|ssrcs| - 1]));
    }
  }

  lemma {:induction false} GroupLinesKeepMedium(t: Track, groups: seq<Group>)
    requires GroupsFit(t, groups)
    ensures AllKeepMedium(GroupLines(groups))
  {
    if groups != [] {
      var last := groups[|groups| - 1];
      GroupLinesKeepMedium(t, groups[..|groups| - 1]);
      GroupLineShape(last);
      AttributeNotMedia("ssrc-group:" + last.semantics + SsrcList(last.ssrcs));
      hide NotMedia, GroupLine;
      KeepMediumAppend(GroupLines(groups[..|groups| - 1]), if last.ssrcs == [] then [] else [GroupLine(last)]);
    }
  }

  lemma {:induction false} TracksKeepMedium(tracks: seq<Track>)
    requires forall i :: 0 <= i < |tracks| ==> Printable(tracks[i])
    ensures AllKeepMedium(TracksLines(tracks))
  {
    if tracks != [] {
      var last := tracks[|tracks| - 1];
      assert Printable(last);
      TracksKeepMedium(tracks[..|tracks| - 1]);
      GroupLinesKeepMedium(last, last.groups);
      SsrcLinesKeepMedium(last, last.ssrcs);
      hide NotMedia, GroupLines, SsrcLines, Printable;
      KeepMediumAppend(GroupLines(last.groups), SsrcLines(last, last.ssrcs));
      KeepMediumAppend(TracksLines(tracks[..|tracks| - 1]), TrackLines(last));
    }
  }

  lemma CredentialsKeepMedium(credentials: Option<Credentials>, valid: Fingerprints)
    requires credentials.Some? ==> PlainCredentials(credentials.value, valid)
    ensures AllKeepMedium(CredentialLines(credentials))
  {
    if credentials.Some? {
      var c := credentials.value;
      var (alg, digest) := if c.fingerprint.Some? then c.fingerprint.value else ("", "");
      TransportRests(c.ufrag, c.pwd, alg, digest);
      SetupInert(c.role);
      hide Lacks, NotMedia, Inert, RoleText;
      AttributeNotMedia("ice-ufrag:" + c.ufrag);
      AttributeNotMedia("ice-pwd:" + c.pwd);
      AttributeNotMedia("fingerprint:" + alg + " " + digest);
      assert NotMedia(["a=setup:" + RoleText(c.role)][0]);
    }
  }

  lemma BodyKeepsMedium(s: Section, audio: bool, valid: Fingerprints)
    requires PrintableSection(s, valid)
    ensures AllKeepMedium(BodyLines(s, audio))
  {
    PreludeInert(s);
    MiddleInert(s, audio);
    CredentialsKeepMedium(s.credentials, valid);
    TracksKeepMedium(s.tracks);
    hide AllInert, AllKeepMedium, Prelude, Middle, CredentialLines, TracksLines;
    KeepMediumAppend(Prelude(s), CredentialLines(s.credentials));
    KeepMediumAppend(Prelude(s) + CredentialLines(s.credentials), Middle(s, audio));
    KeepMediumAppend(Prelude(s) + CredentialLines(s.credentials) + Middle(s, audio), TracksLines(s.tracks));
  }

  // ---- The whole description -------------------------------------------------------------------------------

  lemma {:induction false} FormatsFlat(codecs: seq<Codec>)
    ensures Flat(Formats(codecs))
  {
    if codecs != [] {
      var before, last := Formats(codecs[..|codecs| - 1]), Decimal(codecs[|codecs| - 1].id);
      FormatsFlat(codecs[..|codecs| - 1]);
      DecimalFlat(codecs[|codecs| - 1].id);
      assert Flat(" ");
      hide Flat;
      FlatAppend(before, " ");
      FlatAppend(before + " ", last);
    }
  }

  lemma {:induction false} WordsFlat(names: seq<string>)
    requires forall i :: 0 <= i < |names| ==> Flat(names[i])
    ensures Flat(Words(names))
  {
    if names != [] {
      var before, last := Words(names[..|names| - 1]), names[|names| - 1];
      WordsFlat(names[..|names| - 1]);
      assert Flat(" ");
      hide Flat;
      FlatAppend(before, " ");
      FlatAppend(before + " ", last);
    }
  }

  lemma MediaLineReads(a: Answer, audio: bool, codecs: seq<Codec>)
    ensures var line := "m=" + Mid(audio) + " " + MediaRest(codecs);
            LinesAfter(a, [line]) == Some(a.(media := Mid(audio))) && NoBreaks([line])
  {
    var medium, rest := Mid(audio), MediaRest(codecs);
    FormatsFlat(codecs);
    assert Flat("9 UDP/TLS/RTP/SAVPF");
    FlatAppend("9 UDP/TLS/RTP/SAVPF", Formats(codecs));
    assert rest[1] == ' ';
    LacksAppend("m=" + medium + " ", rest, '\n');
    assert Lacks("m=" + medium + " ", '\n');
    hide Lacks, Mid, MediaRest;
    MediaLineOpens(a, medium, rest);
    OneLine(a, "m=" + medium + " " + rest);
  }

  lemma VideoSectionReads(a: Answer, s: Section)
    requires a.video == [] && a.groups == [] && a.videoTransport == NO_TRANSPORT && PrintableSection(s, a.valid)
    ensures LinesAfter(a, SectionLines(s, false)) ==
            Some(a.(media := "video", videoTransport := TransportOf(s.credentials), video := TracksInfos(s.tracks),
                    groups := TracksGroups(s.tracks)))
    ensures NoBreaks(SectionLines(s, false))
  {
    var line := ["m=" + Mid(false) + " " + MediaRest(s.codecs)];
    MediaLineReads(a, false, s.codecs);
    hide LinesAfter, BodyLines, MediaRest, PrintableSection, TransportOf, NoBreaks;
    BodyReads(a.(media := "video"), s, false);
    LinesAppend(a, line, BodyLines(s, false));
    NoBreaksAppend(line, BodyLines(s, false));
  }

  lemma AudioSectionReads(a: Answer, s: Section)
    requires a.audio == [] && a.audioTransport == NO_TRANSPORT && PrintableSection(s, a.valid)
    ensures LinesAfter(a, SectionLines(s, true)) ==
            Some(a.(media := "audio", audioTransport := TransportOf(s.credentials), audio := TracksInfos(s.tracks)))
    ensures NoBreaks(SectionLines(s, true))
  {
    var line := ["m=" + Mid(true) + " " + MediaRest(s.codecs)];
    MediaLineReads(a, true, s.codecs);
    hide LinesAfter, BodyLines, MediaRest, PrintableSection, TransportOf, NoBreaks;
    var b := a.(media := "audio");
    BodyReads(AsVideo(b), s, true);
    BodyKeepsMedium(s, true, a.valid);
    AudioMirrors(b, BodyLines(s, true));
    LinesAppend(a, line, BodyLines(s, true));
    NoBreaksAppend(line, BodyLines(s, true));
  }

  lemma HeaderInert(bundle: Option<seq<string>>)
    requires bundle.Some? ==> forall i :: 0 <= i < |bundle.value| ==> Flat(bundle.value[i])
    ensures AllInert(HeaderLines(bundle))
  {
    var group := if bundle == None then [] else ["a=group:BUNDLE" + Words(bundle.value)];
    assert AllInert([]) && FlatAttribute("a=group:BUNDLE") && FlatAttribute("a=msid-semantic: WMS");
    hide AllInert, FlatAttribute, Words, Flat;
    if bundle.Some? {
      WordsFlat(bundle.value);
      FlatIsInert("a=group:BUNDLE" + Words(bundle.value));
    }
    FirstLinesInert();
    FlatIsInert("a=msid-semantic: WMS");
    InertAppend(["v=0", "o=- 0 2 IN IP4 127.0.0.1", "s=-", "t=0 0"], group);
    InertAppend(["v=0", "o=- 0 2 IN IP4 127.0.0.1", "s=-", "t=0 0"] + group, ["a=msid-semantic: WMS"]);
  }

  lemma FirstLinesInert()
    ensures AllInert(["v=0", "o=- 0 2 IN IP4 127.0.0.1", "s=-", "t=0 0"])
  {
    var v, o, s, t := "v=0", "o=- 0 2 IN IP4 127.0.0.1", "s=-", "t=0 0";
    assert Quiet(v) && Lacks(v, '\n') && Quiet(s) && Lacks(s, '\n') && Quiet(t) && Lacks(t, '\n');
    assert Quiet(o) && Lacks(o, '\n');
    hide Quiet, Lacks, AllInert;
    QuietIsInert(v);
    QuietIsInert(o);
    QuietIsInert(s);
    QuietIsInert(t);
    InertAppend([v], [o]);
    InertAppend([v] + [o], [s]);
    InertAppend([v] + [o] + [s], [t]);
    assert [v] + [o] + [s] + [t] == [v, o, s, t];
  }

  function AudioTracks(d: Description): seq<Track> {
    if d.audio == None then [] else Bare(d.audio.value.tracks)
  }

  function VideoTracks(d: Description): seq<Track> {
    if d.video == None then [] else d.video.value.tracks
  }

  function SectionTransport(s: Option<Section>): Transport {
    if s == None then NO_TRANSPORT else TransportOf(s.value.credentials)
  }

  /** The lines of an optional section leave the reader with its tracks and credentials, or as it was. */
  lemma SectionsRead(d: Description, valid: Fingerprints)
    requires PrintableDescription(d, valid)
    ensures NoBreaks(DescriptionLines(d)) && LinesAfter(Start(valid), DescriptionLines(d)).Some?
    ensures var a := LinesAfter(Start(valid), DescriptionLines(d)).value;
            && a.audio == (if d.audio == None then [] else TracksInfos(d.audio.value.tracks))
            && a.video == TracksInfos(VideoTracks(d)) && a.groups == TracksGroups(VideoTracks(d))
            && a.audioTransport == SectionTransport(d.audio) && a.videoTransport == SectionTransport(d.video)
  {
    var a, header := Start(valid), HeaderLines(d.bundle);
    hide LinesAfter, HeaderLines, SectionLines, PrintableSection, NoBreaks, AllInert, TransportOf, Flat;
    HeaderInert(d.bundle);
    InertLinesRead(a, header);
    InertUnbroken(header);
    if d.audio.Some? {
      AudioSectionReads(a, d.audio.value);
    } else {
      NoLines(a);
    }
    var b := LinesAfter(a, SectionsLines(d.audio, true)).value;
    if d.video.Some? {
      VideoSectionReads(b, d.video.value);
    } else {
      NoLines(b);
    }
    LinesAppend(a, header, SectionsLines(d.audio, true));
    LinesAppend(a, header + SectionsLines(d.audio, true), SectionsLines(d.video, false));
    NoBreaksAppend(header, SectionsLines(d.audio, true));
    NoBreaksAppend(header + SectionsLines(d.audio, true), SectionsLines(d.video, false));
  }

  lemma NoLines(a: Answer)
    ensures LinesAfter(a, []) == Some(a) && NoBreaks([])
  {
  }

  /**
   * A whole printed description reads back: the video tracks as they are, the audio tracks without their groups, for
   * which the reader does not look, and the credentials of both media with the algorithms in lower case. Candidates,
   * codecs and everything else pass by.
   */
  lemma DescriptionRoundTrip(d: Description, valid: Fingerprints)
    requires PrintableDescription(d, valid)
    ensures RemoteDescription(Ended(DescriptionLines(d)), valid) ==
            Some(Remote(AudioTracks(d), VideoTracks(d), SectionTransport(d.audio), SectionTransport(d.video)))
  {
    assert DescriptionLines(d)[0] == "v=0";
    hide DescriptionLines, LinesAfter, AllAttached, TracksOf, TracksInfos, TracksGroups, Ended, NoBreaks;
    hide PrintableDescription, TransportOf, RemoteDescription;
    TracksArePrintable(d, valid);
    SectionsRead(d, valid);
    TextReads(DescriptionLines(d), valid);
    if d.audio.Some? {
      TracksRebuilt(d.audio.value.tracks);
    }
    TracksRebuilt(VideoTracks(d));
    GroupsReattached(VideoTracks(d));
  }

  /** The codecs every content starts with, with their parameters in the order of a sorted map. */
  const OPUS := Codec(111, "opus", 48000, 2, [("transport-cc", "")], [("minptime", "10"), ("useinbandfec", "1")])
  const H264 :=
    Codec(107, "H264", 90000, 0,
          [("goog-remb", ""), ("transport-cc", ""), ("ccm", "fir"), ("nack", ""), ("nack", "pli")],
          [("level-asymmetry-allowed", "1"), ("packetization-mode", "1"), ("profile-level-id", "42e01f")])
  const RTX := Codec(99, "rtx", 90000, 0, [], [("apt", "107")])

  lemma TracksArePrintable(d: Description, valid: Fingerprints)
    requires PrintableDescription(d, valid)
    ensures AllPrintable(VideoTracks(d)) && (d.audio.Some? ==> AllPrintable(d.audio.value.tracks))
  {
  }

  lemma OpusPrints()
    ensures FlatCodec(OPUS)
  {
    assert FlatParam(("minptime", "10"));
    assert FlatParam(("useinbandfec", "1"));
    assert Flat("opus") && Flat("transport-cc") && Flat("");
    hide Flat, FlatParam;
  }

  lemma RtxPrints()
    ensures FlatCodec(RTX)
  {
    assert FlatParam(("apt", "107"));
    assert Flat("rtx");
    hide Flat, FlatParam;
  }

  lemma H264Params()
    ensures FlatParam(("level-asymmetry-allowed", "1"))
    ensures FlatParam(("packetization-mode", "1"))
    ensures FlatParam(("profile-level-id", "42e01f"))
  {
  }

  lemma H264Feedback()
    ensures Flat("goog-remb") && Flat("transport-cc") && Flat("ccm") && Flat("fir") && Flat("nack") && Flat("pli")
    ensures Flat("") && Flat("H264")
  {
  }

  /** They print: none of their parameters looks like a line of its own. */
  lemma CodecsOfContents()
    ensures FlatCodec(OPUS) && FlatCodec(H264) && FlatCodec(RTX)
  {
    hide Flat, FlatParam;
    OpusPrints();
    RtxPrints();
    H264Params();
    H264Feedback();
  }

  // ---- What a reader that splits the other lines finds ------------------------------------------------------

  lemma Word(front: string, word: string)
    requires Lacks(word, ' ')
    ensures Split(front + " " + word, ' ') == Split(front, ' ') + [word]
  {
    SplitLast(front, ' ', word);
  }

  lemma FirstWord(name: string, rest: string)
    requires Lacks(name, ' ') && Lacks(rest, ' ')
    ensures Split(name + rest, ' ') == [name + rest]
  {
    LacksAppend(name, rest, ' ');
    SplitWhole(name + rest, ' ');
  }

  /** The eight words of a candidate line, in the order of RFC 8839 section 5.1. */
  lemma CandidateReads(c: Candidate)
    requires Lacks(c.foundation, ' ') && Lacks(c.protocol, ' ') && Lacks(c.host, ' ') && Lacks(c.typ, ' ')
    ensures Split(CandidateLine(c), ' ') ==
            ["a=candidate:" + c.foundation, Decimal(c.component), c.protocol, Decimal(c.priority), c.host,
             Decimal(c.port), "typ", c.typ]
  {
    hide Lacks, Split, CandidateLine, Decimal;
    var l0 := "a=candidate:" + c.foundation;
    var l2 := l0 + " " + Decimal(c.component) + " " + c.protocol;
    var l5 := l2 + " " + Decimal(c.priority) + " " + c.host + " " + Decimal(c.port);
    DecimalLacks(c.component, ' ');
    DecimalLacks(c.priority, ' ');
    DecimalLacks(c.port, ' ');
    CandidateTail(c, l5);
    FirstWord("a=candidate:", c.foundation);
    Word(l0, Decimal(c.component));
    Word(l0 + " " + Decimal(c.component), c.protocol);
    Word(l2, Decimal(c.priority));
    Word(l2 + " " + Decimal(c.priority), c.host);
    Word(l2 + " " + Decimal(c.priority) + " " + c.host, Decimal(c.port));
    Word(l5, "typ");
    Word(l5 + " " + "typ", c.typ);
  }

  lemma CandidateTail(c: Candidate, front: string)
    requires front == "a=candidate:" + c.foundation + " " + Decimal(c.component) + " " + c.protocol + " "
                      + Decimal(c.priority) + " " + c.host + " " + Decimal(c.port)
    ensures CandidateLine(c) == front + " " + "typ" + " " + c.typ
    ensures Lacks("a=candidate:", ' ') && Lacks("typ", ' ')
  {
    assert front + " typ " == front + " " + "typ" + " ";
  }

  /** The payload type, then the encoding name, the clock rate and, for audio, the channels between slashes. */
  lemma MapReads(c: Codec, audio: bool)
    requires Lacks(c.name, ' ') && Lacks(c.name, '/')
    ensures var words := Split(MapLine(c, audio), ' ');
            && |words| == 2 && words[0] == "a=rtpmap:" + Decimal(c.id)
            && Split(words[1], '/') ==
               [c.name, Decimal(c.clockrate)] + if audio then [Decimal(c.channels)] else []
  {
    var rate := c.name + "/" + Decimal(c.clockrate);
    var spec := rate + if audio then "/" + Decimal(c.channels) else "";
    assert Lacks("a=rtpmap:", ' ') && Lacks("/", ' ') && Lacks("", ' ');
    assert MapLine(c, audio) == "a=rtpmap:" + Decimal(c.id) + " " + spec;
    DecimalLacks(c.id, ' ');
    DecimalLacks(c.clockrate, ' ');
    DecimalLacks(c.channels, ' ');
    DecimalLacks(c.clockrate, '/');
    DecimalLacks(c.channels, '/');
    LacksAppend(c.name + "/", Decimal(c.clockrate), ' ');
    LacksAppend(c.name, "/", ' ');
    LacksAppend("/", Decimal(c.channels), ' ');
    LacksAppend(rate, if audio then "/" + Decimal(c.channels) else "", ' ');
    FirstWord("a=rtpmap:", Decimal(c.id));
    Word("a=rtpmap:" + Decimal(c.id), spec);
    SplitLast(c.name, '/', Decimal(c.clockrate));
    SplitWhole(c.name, '/');
    if audio {
      SplitLast(rate, '/', Decimal(c.channels));
      AppendAssoc(rate, "/", Decimal(c.channels));
    } else {
      AppendNothing(rate);
    }
  }

  /** The payload type, the name and, unless it is empty, the value of a feedback parameter. */
  lemma FeedbackReads(id: nat, p: Param)
    requires Lacks(p.0, ' ') && Lacks(p.1, ' ')
    ensures Split(FeedbackLine(id, p), ' ') ==
            ["a=rtcp-fb:" + Decimal(id), p.0] + if p.1 == "" then [] else [p.1]
  {
    var front := "a=rtcp-fb:" + Decimal(id);
    assert Lacks("a=rtcp-fb:", ' ');
    DecimalLacks(id, ' ');
    FirstWord("a=rtcp-fb:", Decimal(id));
    Word(front, p.0);
    if p.1 == "" {
      AppendNothing(front + " " + p.0);
    } else {
      AppendAssoc(front + " " + p.0, " ", p.1);
      Word(front + " " + p.0, p.1);
    }
  }

  /** No blank and no semicolon in a parameter. */
  predicate OneField(p: Param) {
    Lacks(p.0 + "=" + p.1, ' ') && Lacks(p.0 + "=" + p.1, ';')
  }

  /** The payload type, then every parameter in its order. */
  lemma FormatReads(c: Codec)
    requires c.params != [] && forall i :: 0 <= i < |c.params| ==> OneField(c.params[i])
    ensures var words := Split(FormatLine(c), ' ');
            && |words| == 2 && words[0] == "a=fmtp:" + Decimal(c.id)
            && var fields := Split(words[1], ';');
               |fields| == |c.params|
               && forall i :: 0 <= i < |fields| ==> fields[i] == c.params[i].0 + "=" + c.params[i].1
  {
    var text := ParamText(c.params);
    ParamsRead(c.params);
    SplitAt("", ';', text[1..]);
    assert text == "" + ";" + text[1..];
    assert Lacks("a=fmtp:", ' ');
    DecimalLacks(c.id, ' ');
    FirstWord("a=fmtp:", Decimal(c.id));
    Word("a=fmtp:" + Decimal(c.id), text[1..]);
  }

  lemma {:induction false} ParamsRead(params: seq<Param>)
    requires forall i :: 0 <= i < |params| ==> OneField(params[i])
    ensures var text := ParamText(params);
            && (params != [] ==> text != "" && text[0] == ';') && Lacks(text, ' ')
            && var fields := Split(text, ';');
               |fields| == |params| + 1
               && forall i :: 0 <= i < |params| ==> fields[i + 1] == params[i].0 + "=" + params[i].1
  {
    if params != [] {
      var before, last := params[..|params| - 1], params[|params| - 1];
      ParamsRead(before);
      var front, field := ParamText(before), last.0 + "=" + last.1;
      assert ParamText(params) == front + ";" + field;
      SplitLast(front, ';', field);
      LacksAppend(front, ";", ' ');
      LacksAppend(front + ";", field, ' ');
    }
  }

  /** The media line names the medium, then the transport, then every payload type in its order. */
  lemma MediaReads(codecs: seq<Codec>, audio: bool)
    ensures var words := Split("m=" + Mid(audio) + " " + MediaRest(codecs), ' ');
            && |words| == 3 + |codecs|
            && words[..3] == ["m=" + (if audio then "audio" else "video"), "9", "UDP/TLS/RTP/SAVPF"]
            && forall i :: 0 <= i < |codecs| ==> words[3 + i] == Decimal(codecs[i].id)
  {
    hide Split, Mid, Formats, Decimal;
    var front := "m=" + Mid(audio) + " ";
    AppendAssoc(front, "9 UDP/TLS/RTP/SAVPF", Formats(codecs));
    MediaFront(audio);
    FormatsRead(front + "9 UDP/TLS/RTP/SAVPF", codecs);
  }

  lemma MediaFront(audio: bool)
    ensures Split("m=" + Mid(audio) + " " + "9 UDP/TLS/RTP/SAVPF", ' ') ==
            ["m=" + (if audio then "audio" else "video"), "9", "UDP/TLS/RTP/SAVPF"]
  {
    var name := "m=" + Mid(audio);
    assert Lacks("m=", ' ') && Lacks(Mid(audio), ' ') && Lacks("9", ' ') && Lacks("UDP/TLS/RTP/SAVPF", ' ');
    assert name + " " + "9 UDP/TLS/RTP/SAVPF" == name + " " + "9" + " " + "UDP/TLS/RTP/SAVPF";
    hide Split, Lacks;
    FirstWord("m=", Mid(audio));
    Word(name, "9");
    Word(name + " " + "9", "UDP/TLS/RTP/SAVPF");
  }

  lemma {:induction false} FormatsRead(front: string, codecs: seq<Codec>)
    ensures var words, n := Split(front + Formats(codecs), ' '), |Split(front, ' ')|;
            && |words| == n + |codecs| && words[..n] == Split(front, ' ')
            && forall i :: 0 <= i < |codecs| ==> words[n + i] == Decimal(codecs[i].id)
  {
    hide Split, Lacks, Decimal;
    if codecs == [] {
      AppendNothing(front);
    } else {
      var before, last := codecs[..|codecs| - 1], codecs[|codecs| - 1];
      FormatsRead(front, before);
      DecimalLacks(last.id, ' ');
      AppendAssoc(front, Formats(before), " ");
      AppendAssoc(front, Formats(before) + " ", Decimal(last.id));
      Word(front + Formats(before), Decimal(last.id));
    }
  }

  /** The names of the bundle, in their order. */
  lemma {:induction false} BundleReads(front: string, names: seq<string>)
    requires forall i :: 0 <= i < |names| ==> Lacks(names[i], ' ')
    ensures Split(front + Words(names), ' ') == Split(front, ' ') + names
  {
    hide Split, Lacks;
    if names == [] {
      AppendNothing(front);
    } else {
      var before, last := names[..|names| - 1], names[|names| - 1];
      BundleReads(front, before);
      AppendAssoc(front, Words(before), " ");
      AppendAssoc(front, Words(before) + " ", last);
      Word(front + Words(before), last);
    }
  }

  /** Every candidate, codec, feedback and codec parameter has its line, and so have mid, direction, mux and role. */
  lemma SectionCarries(s: Section, audio: bool)
    ensures var lines := BodyLines(s, audio);
            && (forall i :: 0 <= i < |s.candidates| ==> CandidateLine(s.candidates[i]) in lines)
            && (forall i :: 0 <= i < |s.codecs| ==> Carries(lines, s.codecs[i], audio))
            && "a=mid:" + Mid(audio) in lines && (s.rtcpMux ==> "a=rtcp-mux" in lines)
            && match s.direction
               case SendRecv => "a=" + "sendrecv" in lines
               case SendOnly => "a=" + "sendonly" in lines
               case RecvOnly => "a=" + "recvonly" in lines
               case Inactive => "a=" + "inactive" in lines
    ensures s.credentials.Some? && s.credentials.value.fingerprint.Some? ==>
              var lines := BodyLines(s, audio);
              match s.credentials.value.role
              case NoRole => "a=setup:" + "none" in lines
              case Active => "a=setup:" + "active" in lines
              case Passive => "a=setup:" + "passive" in lines
              case Actpass => "a=setup:" + "actpass" in lines
              case Holdconn => "a=setup:" + "holdconn" in lines
  {
    hide CandidateLine, TracksLines, CredentialLines, CodecsLines, CandidateLines, Carries, Mid, Prelude, Middle;
    CandidatesCarried(s.candidates);
    CodecsCarried(s.codecs, audio);
    PartsOfBody(s, audio);
    forall i | 0 <= i < |s.codecs|
      ensures Carries(BodyLines(s, audio), s.codecs[i], audio)
    {
      CarriesMore(CodecsLines(s.codecs, audio), BodyLines(s, audio), s.codecs[i], audio);
    }
    assert "a=" + DirectionText(s.direction) in BodyLines(s, audio);
  }

  lemma PartsOfBody(s: Section, audio: bool)
    ensures var lines := BodyLines(s, audio);
            && (forall line :: line in CandidateLines(s.candidates) ==> line in lines)
            && (forall line :: line in CodecsLines(s.codecs, audio) ==> line in lines)
            && "a=mid:" + Mid(audio) in lines && "a=" + DirectionText(s.direction) in lines
            && (s.rtcpMux ==> "a=rtcp-mux" in lines)
            && (s.credentials.Some? && s.credentials.value.fingerprint.Some? ==>
                  "a=setup:" + RoleText(s.credentials.value.role) in lines)
  {
    hide CandidateLines, TracksLines, CodecsLines, Mid, DirectionText, RoleText;
    if s.credentials.Some? && s.credentials.value.fingerprint.Some? {
      var c := s.credentials.value;
      assert CredentialLines(s.credentials)[3] == "a=setup:" + RoleText(c.role);
    }
    hide CredentialLines;
    var names := ["a=mid:" + Mid(audio), "a=" + DirectionText(s.direction)];
    assert names[0] in Middle(s, audio) && names[1] in Middle(s, audio);
    assert s.rtcpMux ==> "a=rtcp-mux" in Middle(s, audio);
  }

  /** The map line of the codec, the line of each of its feedbacks and the line of its parameters, if it has any. */
  predicate Carries(lines: seq<string>, c: Codec, audio: bool) {
    && MapLine(c, audio) in lines && (c.params != [] ==> FormatLine(c) in lines)
    && forall j :: 0 <= j < |c.feedback| ==> FeedbackLine(c.id, c.feedback[j]) in lines
  }

  lemma CarriesMore(a: seq<string>, b: seq<string>, c: Codec, audio: bool)
    requires Carries(a, c, audio) && forall line :: line in a ==> line in b
    ensures Carries(b, c, audio)
  {
  }

  lemma {:induction false} CandidatesCarried(candidates: seq<Candidate>)
    ensures |CandidateLines(candidates)| == |candidates|
    ensures forall i :: 0 <= i < |candidates| ==> CandidateLines(candidates)[i] == CandidateLine(candidates[i])
  {
    hide CandidateLine;
    if candidates != [] {
      CandidatesCarried(candidates[..|candidates| - 1]);
    }
  }

  lemma {:induction false} FeedbackCarried(id: nat, feedback: seq<Param>)
    ensures |FeedbackLines(id, feedback)| == |feedback|
    ensures forall i :: 0 <= i < |feedback| ==> FeedbackLines(id, feedback)[i] == FeedbackLine(id, feedback[i])
  {
    hide FeedbackLine;
    if feedback != [] {
      FeedbackCarried(id, feedback[..|feedback| - 1]);
    }
  }

  lemma {:induction false} CodecsCarried(codecs: seq<Codec>, audio: bool)
    ensures forall i :: 0 <= i < |codecs| ==> Carries(CodecsLines(codecs, audio), codecs[i], audio)
  {
    if codecs != [] {
      var before, last := codecs[..|codecs| - 1], codecs[|codecs| - 1];
      CodecsCarried(before, audio);
      FeedbackCarried(last.id, last.feedback);
      assert Carries(CodecLines(last, audio), last, audio) by {
        hide MapLine, FormatLine, FeedbackLine;
      }
      hide Carries, CodecLines;
      var all := CodecsLines(codecs, audio);
      CarriesMore(CodecLines(last, audio), all, last, audio);
      forall i | 0 <= i < |before|
        ensures Carries(all, codecs[i], audio)
      {
        CarriesMore(CodecsLines(before, audio), all, before[i], audio);
      }
    }
  }

  // ---- The printing as the source does it -----------------------------------------------------------------

  method BuildCandidates(candidates: seq<Candidate>) returns (text: string)
    ensures text == Ended(CandidateLines(candidates))
  {
    hide CandidateLine;
    text := "";
    for i := 0 to |candidates|
      invariant text == Ended(CandidateLines(candidates[..i]))
    {
      assert candidates[..i + 1][..i] == candidates[..i];
      B.EndedOne(CandidateLines(candidates[..i]), CandidateLine(candidates[i]));
      text := text + CandidateLine(candidates[i]) + "\r\n";
    }
    assert candidates[..|candidates|] == candidates;
  }

  method AddFeedback(id: nat, feedback: seq<Param>) returns (text: string)
    ensures text == Ended(FeedbackLines(id, feedback))
  {
    text := "";
    for i := 0 to |feedback|
      invariant text == Ended(FeedbackLines(id, feedback[..i]))
    {
      var line := "a=rtcp-fb:" + Decimal(id) + " " + feedback[i].0;
      if feedback[i].1 != "" {
        line := line + (" " + feedback[i].1);
      } else {
        AppendNothing(line);
      }
      assert line == FeedbackLine(id, feedback[i]);
      assert feedback[..i + 1][..i] == feedback[..i];
      B.EndedOne(FeedbackLines(id, feedback[..i]), line);
      text := text + line + "\r\n";
    }
    assert feedback[..|feedback|] == feedback;
  }

  /** The parameters behind their semicolons, without the first one. */
  method AddFormat(c: Codec) returns (text: string)
    ensures text == Ended(if c.params == [] then [] else [FormatLine(c)])
  {
    if c.params == [] {
      return "";
    }
    var data := "";
    for i := 0 to |c.params|
      invariant data == ParamText(c.params[..i])
      invariant i > 0 ==> data != ""
    {
      assert c.params[..i + 1][..i] == c.params[..i];
      data := data + ";" + c.params[i].0 + "=" + c.params[i].1;
    }
    assert c.params[..|c.params|] == c.params;
    text := "a=fmtp:" + Decimal(c.id) + " " + data[1..] + "\r\n";
    B.EndedOne([], FormatLine(c));
    assert [] + [FormatLine(c)] == [FormatLine(c)];
  }

  method BuildRtpMap(codecs: seq<Codec>, audio: bool) returns (text: string)
    ensures text == Ended(CodecsLines(codecs, audio))
  {
    hide FormatLine, FeedbackLines, Ended;
    text := "";
    B.NothingEnded();
    for i := 0 to |codecs|
      invariant text == Ended(CodecsLines(codecs[..i], audio))
    {
      var c := codecs[i];
      var line := "a=rtpmap:" + Decimal(c.id) + " " + c.name + "/" + Decimal(c.clockrate);
      if audio {
        line := line + ("/" + Decimal(c.channels));
      } else {
        AppendNothing(line);
      }
      var feedback := AddFeedback(c.id, c.feedback);
      var format := AddFormat(c);
      CodecEnded(c, audio);
      assert codecs[..i + 1][..i] == codecs[..i];
      B.EndedAppend(CodecsLines(codecs[..i], audio), CodecLines(c, audio));
      text := text + (line + "\r\n" + feedback + format);
    }
    assert codecs[..|codecs|] == codecs;
  }

  lemma CodecEnded(c: Codec, audio: bool)
    ensures Ended(CodecLines(c, audio)) ==
            MapLine(c, audio) + "\r\n" + Ended(FeedbackLines(c.id, c.feedback))
            + Ended(if c.params == [] then [] else [FormatLine(c)])
  {
    var line := [MapLine(c, audio)];
    hide Ended, MapLine, FormatLine, FeedbackLines;
    OneEnded(MapLine(c, audio));
    B.EndedAppend(line, FeedbackLines(c.id, c.feedback));
    B.EndedAppend(line + FeedbackLines(c.id, c.feedback), if c.params == [] then [] else [FormatLine(c)]);
  }

  lemma OneEnded(line: string)
    ensures Ended([line]) == line + "\r\n"
  {
    B.EndedOne([], line);
    assert [] + [line] == [line];
    assert "" + line == line;
  }

  method BuildPrelude(s: Section) returns (text: string)
    ensures text == Ended(Prelude(s))
  {
    hide CandidateLines;
    var candidates := BuildCandidates(s.candidates);
    var address, rtcp := "c=IN IP4 0.0.0.0", "a=rtcp:9 IN IP4 0.0.0.0";
    TwoEnded(address, rtcp);
    B.EndedAppend([address, rtcp], CandidateLines(s.candidates));
    text := address + "\r\n" + rtcp + "\r\n" + candidates;
  }

  lemma TwoEnded(a: string, b: string)
    ensures Ended([a, b]) == a + "\r\n" + b + "\r\n"
  {
    OneEnded(a);
    B.EndedOne([a], b);
    assert [a] + [b] == [a, b];
  }

  method BuildCredentials(credentials: Option<Credentials>) returns (text: string)
    ensures text == Ended(CredentialLines(credentials))
  {
    text := "";
    if credentials.Some? {
      var c := credentials.value;
      var front := ["a=ice-ufrag:" + c.ufrag, "a=ice-pwd:" + c.pwd];
      text := "a=ice-ufrag:" + c.ufrag + "\r\n" + ("a=ice-pwd:" + c.pwd) + "\r\n";
      TwoEnded(front[0], front[1]);
      assert front + [] == front;
      if c.fingerprint.Some? {
        var line, setup := "a=fingerprint:" + c.fingerprint.value.0 + " " + c.fingerprint.value.1,
                           "a=setup:" + RoleText(c.role);
        TwoEnded(line, setup);
        B.EndedAppend(front, [line, setup]);
        text := text + (line + "\r\n" + setup + "\r\n");
      }
    }
  }

  method BuildMiddle(s: Section, audio: bool) returns (text: string)
    ensures text == Ended(Middle(s, audio))
  {
    hide CodecsLines, Mid, DirectionText;
    var mid, direction := "a=mid:" + Mid(audio), "a=" + DirectionText(s.direction);
    ghost var lines := [mid, direction];
    text := mid + "\r\n" + direction + "\r\n";
    TwoEnded(mid, direction);
    if s.rtcpMux {
      B.EndedOne(lines, "a=rtcp-mux");
      text := text + "a=rtcp-mux" + "\r\n";
      lines := lines + ["a=rtcp-mux"];
    } else {
      AppendNothing(lines);
    }
    var codecs := BuildRtpMap(s.codecs, audio);
    B.EndedAppend(lines, CodecsLines(s.codecs, audio));
    text := text + codecs;
  }

  method BuildSection(s: Section, audio: bool) returns (text: string)
    ensures text == Ended(SectionLines(s, audio))
  {
    hide Prelude, Middle, CredentialLines, TracksLines, Ended, MediaRest, Mid;
    var media := MediaText(s.codecs, audio);
    var prelude := BuildPrelude(s);
    var credentials := BuildCredentials(s.credentials);
    var middle := BuildMiddle(s, audio);
    var tracks := B.BuildSsrc(s.tracks);
    ghost var front := Prelude(s) + CredentialLines(s.credentials);
    OneEnded(media);
    B.EndedAppend(Prelude(s), CredentialLines(s.credentials));
    B.EndedAppend(front, Middle(s, audio));
    B.EndedAppend(front + Middle(s, audio), TracksLines(s.tracks));
    B.EndedAppend([media], BodyLines(s, audio));
    text := media + "\r\n" + (prelude + credentials + middle + tracks);
  }

  method MediaText(codecs: seq<Codec>, audio: bool) returns (line: string)
    ensures line == "m=" + Mid(audio) + " " + MediaRest(codecs)
  {
    var fmt := "";
    for i := 0 to |codecs|
      invariant fmt == Formats(codecs[..i])
    {
      assert codecs[..i + 1][..i] == codecs[..i];
      fmt := fmt + " " + Decimal(codecs[i].id);
    }
    assert codecs[..|codecs|] == codecs;
    line := "m=" + Mid(audio) + " " + ("9 UDP/TLS/RTP/SAVPF" + fmt);
  }

  method BuildHeader(bundle: Option<seq<string>>) returns (text: string)
    ensures text == Ended(HeaderLines(bundle))
  {
    var v, o, s, t := "v=0", "o=- 0 2 IN IP4 127.0.0.1", "s=-", "t=0 0";
    ghost var lines := [v, o, s, t];
    text := v + "\r\n" + o + "\r\n" + (s + "\r\n" + t + "\r\n");
    TwoEnded(v, o);
    TwoEnded(s, t);
    B.EndedAppend([v, o], [s, t]);
    assert [v, o] + [s, t] == lines;
    if bundle.Some? {
      var names := "";
      for i := 0 to |bundle.value|
        invariant names == Words(bundle.value[..i])
      {
        assert bundle.value[..i + 1][..i] == bundle.value[..i];
        names := names + " " + bundle.value[i];
      }
      assert bundle.value[..|bundle.value|] == bundle.value;
      B.EndedOne(lines, "a=group:BUNDLE" + names);
      text := text + ("a=group:BUNDLE" + names) + "\r\n";
      lines := lines + ["a=group:BUNDLE" + names];
    } else {
      AppendNothing(lines);
    }
    B.EndedOne(lines, "a=msid-semantic: WMS");
    text := text + "a=msid-semantic: WMS" + "\r\n";
  }

  /** `to_string`: the text whose lines `DescriptionRoundTrip` reads back. */
  method ToText(d: Description) returns (text: string)
    ensures text == Ended(DescriptionLines(d))
  {
    hide HeaderLines, SectionLines, Ended;
    text := BuildHeader(d.bundle);
    B.NothingEnded();
    var audio, video := "", "";
    if d.audio.Some? {
      audio := BuildSection(d.audio.value, true);
    }
    if d.video.Some? {
      video := BuildSection(d.video.value, false);
    }
    B.EndedAppend(HeaderLines(d.bundle), SectionsLines(d.audio, true));
    B.EndedAppend(HeaderLines(d.bundle) + SectionsLines(d.audio, true), SectionsLines(d.video, false));
    text := text + audio + video;
  }
}
