/** The SSRC lines of a session description (RFC 5576, sections 4.1 and 4.2), printed, parsed and made tracks again. */
module Sdp {
  import opened Octets
  import opened Text

  datatype Group = Group(semantics: string, ssrcs: seq<uint32>)

  datatype Track = Track(id: string, ssrcs: seq<uint32>, groups: seq<Group>, cname: string, streamId: string)

  /** What the lines say about one SSRC. */
  datatype Info = Info(ssrc: uint32, cname: string, streamId: string, trackId: string)

  // ---- Printing ---------------------------------------------------------------------------------------

  function SsrcLine(ssrc: uint32, attribute: string, value: string): string {
    "a=ssrc:" + Decimal(ssrc) + " " + attribute + ":" + value
  }

  function SsrcList(ssrcs: seq<uint32>): string {
    if ssrcs == [] then "" else SsrcList(ssrcs[..|ssrcs| - 1]) + " " + Decimal(ssrcs[|ssrcs| - 1])
  }

  function GroupLine(g: Group): string {
    "a=ssrc-group:" + g.semantics + SsrcList(g.ssrcs)
  }

  /** Groups without SSRCs are not printed. */
  function GroupLines(groups: seq<Group>): seq<string> {
    if groups == [] then []
    else
      var last := groups[|groups| - 1];
      GroupLines(groups[..|groups| - 1]) + if last.ssrcs == [] then [] else [GroupLine(last)]
  }

  function SsrcLines(t: Track, ssrcs: seq<uint32>): seq<string> {
    if ssrcs == [] then []
    else
      var last := ssrcs[|ssrcs| - 1];
      SsrcLines(t, ssrcs[..|ssrcs| - 1]) + InfoLines(t, last)
  }

  function InfoLines(t: Track, ssrc: uint32): seq<string> {
    [SsrcLine(ssrc, "cname", t.cname),
     SsrcLine(ssrc, "msid", t.streamId + " " + t.id),
     SsrcLine(ssrc, "mslabel", t.streamId),
     SsrcLine(ssrc, "label", t.id)]
  }

  function TrackLines(t: Track): seq<string> {
    GroupLines(t.groups) + SsrcLines(t, t.ssrcs)
  }

  function TracksLines(tracks: seq<Track>): seq<string> {
    if tracks == [] then [] else TracksLines(tracks[..|tracks| - 1]) + TrackLines(tracks[|tracks| - 1])
  }

  /** Lines as they stand in the text. */
  function Ended(lines: seq<string>): string {
    if lines == [] then "" else Ended(lines[..|lines| - 1]) + lines[|lines| - 1] + "\r\n"
  }

  // ---- Parsing ----------------------------------------------------------------------------------------

  function IndexOf(infos: seq<Info>, ssrc: uint32): (i: nat)
    ensures i <= |infos|
    ensures forall j :: 0 <= j < i ==> infos[j].ssrc != ssrc
    ensures i < |infos| ==> infos[i].ssrc == ssrc
  {
    if infos == [] || infos[0].ssrc == ssrc then 0 else 1 + IndexOf(infos[1..], ssrc)
  }

  /** The entry of an SSRC, made when there is none. */
  function WithEntry(infos: seq<Info>, ssrc: uint32): seq<Info> {
    if IndexOf(infos, ssrc) < |infos| then infos else infos + [Info(ssrc, "", "", "")]
  }

  /** What an attribute sets; none for a `msid` of more than two fields. */
  function WithAttribute(info: Info, attribute: string, value: string): Option<Info> {
    if attribute == "cname" then Some(info.(cname := value))
    else if attribute == "msid" then
      var fields := Split(value, ' ');
      if |fields| > 2 then None
      else if |fields| == 2 then Some(info.(streamId := fields[0], trackId := fields[1]))
      else Some(info.(streamId := fields[0]))
    else Some(info)
  }

  /** The id, the attribute and the value of an `a=ssrc:` line. */
  function SsrcFields(line: string): Option<(uint32, string, string)>
    requires |line| >= 2
  {
    match TokenizeFirst(line[2..], ' ')
    case None => None
    case Some((field1, field2)) =>
      if |field1| < 5 then None
      else
        match FromString(field1[5..])
        case None => None
        case Some(id) =>
          match TokenizeFirst(field2, ':')
          case None => None
          case Some((attribute, value)) => Some((id, attribute, value))
  }

  function SsrcInfoAfter(infos: seq<Info>, line: string): Option<seq<Info>> {
    if !Contains(line, "a=ssrc:") || |line| < 2 then Some(infos)
    else
      match SsrcFields(line)
      case None => None
      case Some((id, attribute, value)) => InfoSet(infos, id, attribute, value)
  }

  function InfoSet(infos: seq<Info>, id: uint32, attribute: string, value: string): Option<seq<Info>> {
    var all := WithEntry(infos, id);
    var i := IndexOf(infos, id);
    match WithAttribute(all[i], attribute, value)
    case None => None
    case Some(info) => Some(all[i := info])
  }

  /** The single value of `name:value`. */
  function Attribute(field: string): string {
    var fields := Tokenize(field, ':');
    if |fields| == 2 then fields[1] else ""
  }

  function Ssrcs(fields: seq<string>): Option<seq<uint32>> {
    if fields == [] then Some([])
    else
      match Ssrcs(fields[..|fields| - 1])
      case None => None
      case Some(before) =>
        match FromString(fields[|fields| - 1])
        case None => None
        case Some(id) => Some(before + [id])
  }

  function GroupInfoAfter(groups: seq<Group>, line: string): Option<seq<Group>> {
    if !Contains(line, "a=ssrc-group:") || |line| < 2 then Some(groups)
    else
      var fields := Split(line[2..], ' ');
      if |fields| < 2 || Attribute(fields[0]) == "" then None
      else
        match Ssrcs(fields[1..])
        case None => None
        case Some(ids) => Some(groups + [Group(Attribute(fields[0]), ids)])
  }

  /** The credentials of a medium; the fingerprint is its algorithm, in lower case, and its digest. */
  datatype Transport = Transport(ufrag: string, pwd: string, fingerprint: Option<(string, string)>)

  const NO_TRANSPORT := Transport("", "", None)

  /** Which algorithms and digests make a fingerprint. */
  type Fingerprints = (string, string) -> bool

  function TransportAfter(td: Transport, line: string, valid: Fingerprints): Option<Transport> {
    if Contains(line, "a=ice-ufrag") then
      if Attribute(line) == "" then None else Some(td.(ufrag := Attribute(line)))
    else if Contains(line, "a=ice-pwd") then
      if Attribute(line) == "" then None else Some(td.(pwd := Attribute(line)))
    else if Contains(line, "a=fingerprint") then
      var items := Tokenize(line, ' ');
      if |items| != 2 || |items[0]| < 14 || !valid(Lower(items[0][14..]), items[1]) then None
      else Some(td.(fingerprint := Some((Lower(items[0][14..]), items[1]))))
    else Some(td)
  }

  /** What the loop over the lines keeps; `valid` stays what it is. */
  datatype Answer =
    Answer(media: string, audio: seq<Info>, video: seq<Info>, groups: seq<Group>,
           audioTransport: Transport, videoTransport: Transport, valid: Fingerprints)

  function Start(valid: Fingerprints): Answer {
    Answer("", [], [], [], NO_TRANSPORT, NO_TRANSPORT, valid)
  }

  predicate NotMedia(line: string) {
    Contains(line, "m=group:BUNDLE") || !Contains(line, "m=")
  }

  function MediaAfter(media: string, line: string): Option<string> {
    if NotMedia(line) then Some(media)
    else
      var items := Split(line, ' ');
      if |items| <= 2 || |items[0]| < 2 then None else Some(items[0][2..])
  }

  function LineAfter(a: Answer, line: string): Option<Answer> {
    match MediaAfter(a.media, line)
    case None => None
    case Some(media) =>
      if media == "audio" then
        match TransportAfter(a.audioTransport, line, a.valid)
        case None => None
        case Some(td) =>
          match SsrcInfoAfter(a.audio, line)
          case None => None
          case Some(infos) => Some(a.(media := media, audioTransport := td, audio := infos))
      else if media == "video" then
        match TransportAfter(a.videoTransport, line, a.valid)
        case None => None
        case Some(td) =>
          match GroupInfoAfter(a.groups, line)
          case None => None
          case Some(groups) =>
            match SsrcInfoAfter(a.video, line)
            case None => None
            case Some(infos) => Some(a.(media := media, videoTransport := td, groups := groups, video := infos))
      else Some(a.(media := media))
  }

  function LinesAfter(a: Answer, lines: seq<string>): Option<Answer> {
    if lines == [] then Some(a)
    else
      match LinesAfter(a, lines[..|lines| - 1])
      case None => None
      case Some(before) => LineAfter(before, lines[|lines| - 1])
  }

  // ---- Which lines are refused ----------------------------------------------------------------------------

  /** The line is 14 characters and an algorithm, and a digest, in two words. */
  predicate IsFingerprint(line: string, front: string, alg: string, digest: string) {
    |front| == 14 && Tokenize(line, ' ') == [front + alg, digest]
  }

  /** A fragment or a password that is not one value behind one name, or no acceptable fingerprint. */
  ghost predicate BadCredential(line: string, valid: Fingerprints) {
    if Contains(line, "a=ice-ufrag") || Contains(line, "a=ice-pwd") then |Tokenize(line, ':')| != 2
    else
      && Contains(line, "a=fingerprint")
      && !exists front, alg, digest :: IsFingerprint(line, front, alg, digest) && valid(Lower(alg), digest)
  }

  /** No id, attribute and value, or a stream and a track with more than one space. */
  predicate BadSsrc(line: string) {
    && Contains(line, "a=ssrc:") && |line| >= 2
    && (SsrcFields(line).None? || (SsrcFields(line).value.1 == "msid" && |Split(SsrcFields(line).value.2, ' ')| > 2))
  }

  /** No semantics behind one colon, no SSRC, or one that is no number of 32 bits. */
  predicate BadGroup(line: string) {
    && Contains(line, "a=ssrc-group:") && |line| >= 2
    && var words := Split(line[2..], ' ');
       |words| < 2 || |Tokenize(words[0], ':')| != 2 || exists i :: 1 <= i < |words| && FromString(words[i]).None?
  }

  /**
   * A line is refused exactly when it opens a medium with fewer than three words or a first word of one character, or
   * when it says something bad in a medium that is read; groups are read in the video section only.
   */
  lemma RefusedLines(a: Answer, line: string)
    ensures var opens := !NotMedia(line);
            var words := Split(line, ' ');
            var media := if opens && |words[0]| >= 2 then words[0][2..] else a.media;
            LineAfter(a, line).None? <==>
              || (opens && (|words| < 3 || |words[0]| < 2))
              || (media == "audio" && (BadCredential(line, a.valid) || BadSsrc(line)))
              || (media == "video" && (BadCredential(line, a.valid) || BadSsrc(line) || BadGroup(line)))
  {
    CredentialRefused(a.audioTransport, line, a.valid);
    CredentialRefused(a.videoTransport, line, a.valid);
    GroupRefused(a.groups, line);
    SsrcRefused(a.audio, line);
    SsrcRefused(a.video, line);
    hide TransportAfter, SsrcInfoAfter, GroupInfoAfter, NotMedia, BadCredential, BadSsrc, BadGroup, Split;
  }

  lemma CredentialRefused(td: Transport, line: string, valid: Fingerprints)
    ensures TransportAfter(td, line, valid).None? <==> BadCredential(line, valid)
  {
    hide Contains, Lower;
    NoEmptyTokens(Split(line, ':'));
    assert |Tokenize(line, ':')| == 2 ==> Tokenize(line, ':')[1] != [];
    hide Tokenize;
    var items := Tokenize(line, ' ');
    if |items| == 2 && |items[0]| >= 14 {
      assert items[0] == items[0][..14] + items[0][14..];
      assert IsFingerprint(line, items[0][..14], items[0][14..], items[1]);
    }
    forall front, alg, digest | IsFingerprint(line, front, alg, digest)
      ensures |items| == 2 && |items[0]| >= 14 && items[0][14..] == alg && items[1] == digest
    {
      AppendParts(front, alg);
    }
  }

  lemma SsrcRefused(infos: seq<Info>, line: string)
    ensures SsrcInfoAfter(infos, line).None? <==> BadSsrc(line)
  {
    hide Contains, SsrcFields, Split;
  }

  lemma GroupRefused(groups: seq<Group>, line: string)
    ensures GroupInfoAfter(groups, line).None? <==> BadGroup(line)
  {
    hide Contains;
    if |line| >= 2 {
      var words := Split(line[2..], ' ');
      NoEmptyTokens(Split(words[0], ':'));
      hide Split, FromString;
      SsrcsRefused(words[1..]);
      if i :| 1 <= i < |words| && FromString(words[i]).None? {
        assert words[1..][i - 1] == words[i];
      }
    }
  }

  lemma {:induction false} SsrcsRefused(fields: seq<string>)
    ensures Ssrcs(fields).None? <==> exists i :: 0 <= i < |fields| && FromString(fields[i]).None?
  {
    hide FromString;
    if fields != [] {
      var last := |fields| - 1;
      SsrcsRefused(fields[..last]);
      if i :| 0 <= i < last && FromString(fields[i]).None? {
        assert fields[..last][i] == fields[i];
      }
    }
  }

  // ---- Rebuilding the tracks ------------------------------------------------------------------------------

  function IndexOfTrack(tracks: seq<Track>, id: string): (i: nat)
    ensures i <= |tracks|
    ensures forall j :: 0 <= j < i ==> tracks[j].id != id
    ensures i < |tracks| ==> tracks[i].id == id
  {
    if tracks == [] || tracks[0].id == id then 0 else 1 + IndexOfTrack(tracks[1..], id)
  }

  function InfoAdded(tracks: seq<Track>, info: Info): seq<Track> {
    var i := IndexOfTrack(tracks, info.trackId);
    if i == |tracks| then tracks + [Track(info.trackId, [info.ssrc], [], info.cname, info.streamId)]
    else tracks[i := tracks[i].(streamId := info.streamId, cname := info.cname, ssrcs := tracks[i].ssrcs + [info.ssrc])]
  }

  function TracksOf(infos: seq<Info>): seq<Track> {
    if infos == [] then [] else InfoAdded(TracksOf(infos[..|infos| - 1]), infos[|infos| - 1])
  }

  /** The entries of one track. */
  function OfTrack(infos: seq<Info>, id: string): seq<Info> {
    if infos == [] then []
    else
      var last := infos[|infos| - 1];
      OfTrack(infos[..|infos| - 1], id) + if last.trackId == id then [last] else []
  }

  function SsrcsOf(infos: seq<Info>): seq<uint32> {
    if infos == [] then [] else SsrcsOf(infos[..|infos| - 1]) + [infos[|infos| - 1].ssrc]
  }

  /** All SSRCs of the entries in their order, and the names that the last one gives. */
  predicate Collects(t: Track, infos: seq<Info>) {
    infos != [] &&
    var last := infos[|infos| - 1];
    t == Track(last.trackId, SsrcsOf(infos), [], last.cname, last.streamId)
  }

  predicate Named(tracks: seq<Track>, id: string) {
    exists i :: 0 <= i < |tracks| && tracks[i].id == id
  }

  /** For any entries: every track they name has one place and collects exactly the entries that name it. */
  lemma {:induction false} TracksCollect(infos: seq<Info>)
    ensures var tracks := TracksOf(infos);
            && (forall i, j :: 0 <= i < j < |tracks| ==> tracks[i].id != tracks[j].id)
            && (forall i :: 0 <= i < |tracks| ==> Collects(tracks[i], OfTrack(infos, tracks[i].id)))
            && (forall k :: 0 <= k < |infos| ==> Named(tracks, infos[k].trackId))
  {
    hide InfoAdded, TracksOf, Collects, OfTrack, IndexOfTrack;
    TracksStep(infos, "");
    if infos != [] {
      var before, last := infos[..|infos| - 1], infos[|infos| - 1];
      var front, tracks := TracksOf(before), TracksOf(infos);
      TracksCollect(before);
      PlaceTaken(front, last, tracks);
      forall i | 0 <= i < |tracks|
        ensures Collects(tracks[i], OfTrack(infos, tracks[i].id))
      {
        TracksStep(infos, tracks[i].id);
        CollectsStep(front, before, last, i);
      }
      forall k | 0 <= k < |infos|
        ensures Named(tracks, infos[k].trackId)
      {
        if k < |before| {
          var j :| 0 <= j < |front| && front[j].id == before[k].trackId;
          assert tracks[j].id == infos[k].trackId;
        }
      }
    }
  }

  lemma TracksStep(infos: seq<Info>, id: string)
    ensures infos == [] ==> TracksOf(infos) == []
    ensures infos != [] ==>
              var before, last := infos[..|infos| - 1], infos[|infos| - 1];
              && TracksOf(infos) == InfoAdded(TracksOf(before), last)
              && OfTrack(infos, id) == OfTrack(before, id) + if last.trackId == id then [last] else []
  {
  }

  /** One entry keeps every place and changes one track, which may be new. */
  lemma PlaceTaken(front: seq<Track>, info: Info, tracks: seq<Track>)
    requires tracks == InfoAdded(front, info)
    ensures |front| <= |tracks| <= |front| + 1
    ensures forall j :: 0 <= j < |front| ==> tracks[j].id == front[j].id
    ensures |tracks| > |front| ==> tracks[|front|].id == info.trackId && !Named(front, info.trackId)
    ensures Named(tracks, info.trackId)
  {
    var at := IndexOfTrack(front, info.trackId);
    assert tracks[at].id == info.trackId;
  }

  lemma CollectsStep(front: seq<Track>, before: seq<Info>, last: Info, i: nat)
    requires i < |InfoAdded(front, last)|
    requires forall i, j :: 0 <= i < j < |front| ==> front[i].id != front[j].id
    requires forall j :: 0 <= j < |front| ==> Collects(front[j], OfTrack(before, front[j].id))
    requires forall k :: 0 <= k < |before| ==> Named(front, before[k].trackId)
    ensures var t := InfoAdded(front, last)[i];
            Collects(t, OfTrack(before, t.id) + if last.trackId == t.id then [last] else [])
  {
    hide OfTrack, Collects, SsrcsOf, IndexOfTrack;
    var at := IndexOfTrack(front, last.trackId);
    if i == |front| {
      NoOtherEntries(before, last.trackId);
      NewCollects(last);
    } else if i == at {
      CollectsMore(front[i], OfTrack(before, front[i].id), last);
    } else {
      AppendNothing(OfTrack(before, front[i].id));
    }
  }

  lemma CollectsMore(t: Track, infos: seq<Info>, last: Info)
    requires Collects(t, infos) && t.id == last.trackId
    ensures Collects(t.(streamId := last.streamId, cname := last.cname, ssrcs := t.ssrcs + [last.ssrc]), infos + [last])
  {
    assert (infos + [last])[..|infos|] == infos;
  }

  lemma NewCollects(info: Info)
    ensures Collects(Track(info.trackId, [info.ssrc], [], info.cname, info.streamId), [] + [info])
  {
    assert [info][..0] == [];
  }

  lemma {:induction false} NoOtherEntries(infos: seq<Info>, id: string)
    ensures (forall k :: 0 <= k < |infos| ==> infos[k].trackId != id) ==> OfTrack(infos, id) == []
  {
    if infos != [] {
      NoOtherEntries(infos[..|infos| - 1], id);
    }
  }

  predicate Takes(t: Track, g: Group) {
    g.ssrcs != [] && g.ssrcs[0] in t.ssrcs
  }

  function Attached(tracks: seq<Track>, g: Group): (r: seq<Track>)
    ensures |r| == |tracks|
  {
    if tracks == [] then []
    else
      var last := tracks[|tracks| - 1];
      Attached(tracks[..|tracks| - 1], g) + [if Takes(last, g) then last.(groups := last.groups + [g]) else last]
  }

  function AllAttached(tracks: seq<Track>, groups: seq<Group>): (r: seq<Track>)
    ensures |r| == |tracks|
  {
    if groups == [] then tracks
    else Attached(AllAttached(tracks, groups[..|groups| - 1]), groups[|groups| - 1])
  }

  function Stripped(fields: seq<string>, crlf: bool): seq<string> {
    if fields == [] then []
    else
      var last := fields[|fields| - 1];
      Stripped(fields[..|fields| - 1], crlf) + [if crlf && last != "" then last[..|last| - 1] else last]
  }

  /** What an answer says: the tracks and the credentials of both media. */
  datatype Remote =
    Remote(audio: seq<Track>, video: seq<Track>, audioTransport: Transport, videoTransport: Transport)

  function Described(a: Answer): Remote {
    Remote(TracksOf(a.audio), AllAttached(TracksOf(a.video), a.groups), a.audioTransport, a.videoTransport)
  }

  /** None when the source reports an error. */
  function RemoteDescription(sdp: string, valid: Fingerprints): Option<Remote> {
    var fields := Tokenize(sdp, '\n');
    if fields == [] then None
    else
      match LinesAfter(Start(valid), Stripped(fields, Contains(sdp, "\r\n")))
      case None => None
      case Some(a) => Some(Described(a))
  }

  // ---- One printed line -------------------------------------------------------------------------------------

  predicate Lacks(s: string, mark: char) {
    forall i :: 0 <= i < |s| ==> s[i] != mark
  }

  lemma LacksAppend(a: string, b: string, mark: char)
    ensures Lacks(a + b, mark) <==> Lacks(a, mark) && Lacks(b, mark)
  {
    var c := a + b;
    assert forall i :: 0 <= i < |a| ==> c[i] == a[i];
    assert forall i :: 0 <= i < |b| ==> c[|a| + i] == b[i];
  }

  lemma DecimalLacks(n: nat, mark: char)
    requires !IsDigit(mark)
    ensures Lacks(Decimal(n), mark)
  {
    DecimalReads(n);
  }

  /** A line that starts with `a=` and has no further equals sign is found only by patterns it starts with. */
  lemma AttributeLine(rest: string)
    requires Lacks(rest, '=')
    ensures var line := "a=" + rest;
            && NotMedia(line) && line[2..] == rest
            && (Contains(line, "a=ssrc:") <==> "a=ssrc:" <= line)
            && (Contains(line, "a=ssrc-group:") <==> "a=ssrc-group:" <= line)
  {
    var line := "a=" + rest;
    assert forall i :: 2 <= i < |line| ==> line[i] == rest[i - 2];
    FoundInFront(line, "m=group:BUNDLE", '=');
    FoundInFront(line, "m=", '=');
    FoundInFront(line, "a=ssrc:", '=');
    FoundInFront(line, "a=ssrc-group:", '=');
    assert line[0] == 'a' && "m=group:BUNDLE"[0] == 'm' && "m="[0] == 'm';
  }

  /** The printed lines of tracks leave the credentials alone. */
  lemma NoTransportLine(rest: string, td: Transport, valid: Fingerprints)
    requires Lacks(rest, '=') && "ssrc" <= rest
    ensures TransportAfter(td, "a=" + rest, valid) == Some(td)
  {
    var line := "a=" + rest;
    assert forall i :: 2 <= i < |line| ==> line[i] == rest[i - 2];
    FoundInFront(line, "a=ice-ufrag", '=');
    FoundInFront(line, "a=ice-pwd", '=');
    FoundInFront(line, "a=fingerprint", '=');
    assert line[2] == 's' && "a=ice-ufrag"[2] == 'i' && "a=ice-pwd"[2] == 'i' && "a=fingerprint"[2] == 'f';
  }

  function SsrcRest(ssrc: uint32, attribute: string, value: string): string {
    "ssrc:" + Decimal(ssrc) + " " + (attribute + ":" + value)
  }

  lemma SsrcLineShape(ssrc: uint32, attribute: string, value: string)
    requires Lacks(attribute, '=') && Lacks(value, '=')
    ensures SsrcLine(ssrc, attribute, value) == "a=" + SsrcRest(ssrc, attribute, value)
    ensures Lacks(SsrcRest(ssrc, attribute, value), '=')
    ensures "a=ssrc:" <= SsrcLine(ssrc, attribute, value)
    ensures !("a=ssrc-group:" <= SsrcLine(ssrc, attribute, value))
  {
    var line := SsrcLine(ssrc, attribute, value);
    assert line == "a=" + SsrcRest(ssrc, attribute, value);
    assert line[6] == ':' && "a=ssrc-group:"[6] == '-';
    DecimalLacks(ssrc, '=');
    LacksAppend("ssrc:", Decimal(ssrc), '=');
    LacksAppend("ssrc:" + Decimal(ssrc), " ", '=');
    LacksAppend(attribute, ":", '=');
    LacksAppend(attribute + ":", value, '=');
    LacksAppend("ssrc:" + Decimal(ssrc) + " ", attribute + ":" + value, '=');
  }

  lemma SsrcLineFields(ssrc: uint32, attribute: string, value: string)
    requires Lacks(attribute, '=') && Lacks(value, '=') && Lacks(attribute, ':')
    requires attribute != "" && attribute[0] != ' '
    ensures SsrcFields(SsrcLine(ssrc, attribute, value)) == Some((ssrc, attribute, SkipAll(value, ':')))
  {
    SsrcLineShape(ssrc, attribute, value);
    var field1, field2 := "ssrc:" + Decimal(ssrc), attribute + ":" + value;
    assert ("a=" + SsrcRest(ssrc, attribute, value))[2..] == field1 + [' '] + field2;
    DecimalLacks(ssrc, ' ');
    LacksAppend("ssrc:", Decimal(ssrc), ' ');
    TokenizeFirstAt(field1, ' ', field2);
    TokenizeFirstAt(attribute, ':', value);
    assert field1[5..] == Decimal(ssrc);
    DecimalReads(ssrc);
    assert field2 == attribute + [':'] + value;
    assert field2[0] == attribute[0];
  }

  /** Reading back one printed line sets that attribute of that SSRC and nothing else. */
  lemma SsrcLineReads(a: Answer, ssrc: uint32, attribute: string, value: string)
    requires Lacks(attribute, '=') && Lacks(value, '=') && Lacks(attribute, ':')
    requires attribute != "" && attribute[0] != ' '
    requires a.media == "video"
    ensures LineAfter(a, SsrcLine(ssrc, attribute, value)) ==
            match InfoSet(a.video, ssrc, attribute, SkipAll(value, ':'))
            case None => None
            case Some(infos) => Some(a.(video := infos))
  {
    var line := SsrcLine(ssrc, attribute, value);
    SsrcLineShape(ssrc, attribute, value);
    AttributeLine(SsrcRest(ssrc, attribute, value));
    SsrcLineFields(ssrc, attribute, value);
    NoTransportLine(SsrcRest(ssrc, attribute, value), a.videoTransport, a.valid);
    hide SsrcLine, SsrcRest, SsrcFields, Contains, NotMedia, InfoSet, TransportAfter;
    assert SsrcInfoAfter(a.video, line) == InfoSet(a.video, ssrc, attribute, SkipAll(value, ':'));
    assert GroupInfoAfter(a.groups, line) == Some(a.groups);
  }

  // ---- The lines of one SSRC ----------------------------------------------------------------------------------

  function Then(a: Option<Answer>, lines: seq<string>): Option<Answer> {
    if a.None? then None else LinesAfter(a.value, lines)
  }

  lemma {:induction false} LinesAppend(a: Answer, x: seq<string>, y: seq<string>)
    ensures LinesAfter(a, x + y) == Then(LinesAfter(a, x), y)
  {
    hide LineAfter;
    if y == [] {
      assert x + y == x;
    } else {
      var last := |y| - 1;
      assert (x + y)[..|x| + last] == x + y[..last];
      LinesAppend(a, x, y[..last]);
    }
  }

  lemma OneLine(a: Answer, line: string)
    ensures LinesAfter(a, [line]) == LineAfter(a, line)
  {
    assert [line][..0] == [];
  }

  lemma FourLines(a: Answer, b: Answer, c: Answer, d: Answer, e: Answer, lines: seq<string>)
    requires |lines| == 4
    requires LineAfter(a, lines[0]) == Some(b) && LineAfter(b, lines[1]) == Some(c)
    requires LineAfter(c, lines[2]) == Some(d) && LineAfter(d, lines[3]) == Some(e)
    ensures LinesAfter(a, lines) == Some(e)
  {
    hide LineAfter;
    assert lines[..3][..2] == lines[..2] && lines[..2][..1] == lines[..1] && lines[..1] == [lines[0]];
    OneLine(a, lines[0]);
    assert LinesAfter(a, lines[..2]) == Some(c);
    assert LinesAfter(a, lines[..3]) == Some(d);
  }

  predicate StartsWith(s: string, mark: char) {
    s != "" && s[0] == mark
  }

  /** Names that survive the delimiters of the lines they are printed on. */
  predicate WellNamed(t: Track) {
    && Lacks(t.cname, '=') && Lacks(t.streamId, '=') && Lacks(t.id, '=')
    && Lacks(t.streamId, ' ') && Lacks(t.id, ' ')
    && !StartsWith(t.cname, ':') && !StartsWith(t.streamId, ':')
  }

  lemma NewEntry(infos: seq<Info>, ssrc: uint32, cname: string)
    requires IndexOf(infos, ssrc) == |infos|
    ensures InfoSet(infos, ssrc, "cname", cname) == Some(infos + [Info(ssrc, cname, "", "")])
  {
    ReplaceLast(infos, Info(ssrc, "", "", ""), Info(ssrc, cname, "", ""));
  }

  lemma {:induction false} IndexOfLast(infos: seq<Info>, info: Info)
    requires IndexOf(infos, info.ssrc) == |infos|
    ensures IndexOf(infos + [info], info.ssrc) == |infos|
  {
    var all := infos + [info];
    assert all[|infos|] == info;
    assert forall j :: 0 <= j < |infos| ==> all[j] == infos[j];
  }

  lemma LastEntry(infos: seq<Info>, info: Info, attribute: string, value: string)
    requires IndexOf(infos, info.ssrc) == |infos|
    ensures InfoSet(infos + [info], info.ssrc, attribute, value) ==
            match WithAttribute(info, attribute, value)
            case None => None
            case Some(new') => Some(infos + [new'])
  {
    IndexOfLast(infos, info);
    var all := infos + [info];
    assert all[|infos|] == info;
    if WithAttribute(info, attribute, value).Some? {
      ReplaceLast(infos, info, WithAttribute(info, attribute, value).value);
    }
  }

  /** A `msid` value gives both names back exactly when neither has a space. */
  lemma MsidSets(info: Info, streamId: string, trackId: string)
    ensures WithAttribute(info, "msid", streamId + " " + trackId) ==
              Some(info.(streamId := streamId, trackId := trackId)) <==>
            Lacks(streamId, ' ') && Lacks(trackId, ' ')
  {
    assert streamId + " " + trackId == streamId + [' '] + trackId;
    SplitCounts(streamId, ' ', trackId);
    if Lacks(streamId, ' ') && Lacks(trackId, ' ') {
      SplitAt(streamId, ' ', trackId);
      SplitWhole(trackId, ' ');
    } else if ' ' in streamId {
      SplitMany(streamId, ' ');
    } else {
      assert ' ' in trackId;
      SplitMany(trackId, ' ');
    }
  }

  lemma CnameLineReads(a: Answer, t: Track, ssrc: uint32)
    requires a.media == "video" && WellNamed(t) && IndexOf(a.video, ssrc) == |a.video|
    ensures LineAfter(a, SsrcLine(ssrc, "cname", t.cname)) ==
            Some(a.(video := a.video + [Info(ssrc, t.cname, "", "")]))
  {
    hide SsrcLine, LineAfter, InfoSet;
    SsrcLineReads(a, ssrc, "cname", t.cname);
    assert SkipAll(t.cname, ':') == t.cname;
    NewEntry(a.video, ssrc, t.cname);
  }

  lemma MsidLineReads(a: Answer, t: Track, ssrc: uint32, before: seq<Info>)
    requires a.media == "video" && WellNamed(t) && IndexOf(before, ssrc) == |before|
    requires a.video == before + [Info(ssrc, t.cname, "", "")]
    ensures LineAfter(a, SsrcLine(ssrc, "msid", t.streamId + " " + t.id)) ==
            Some(a.(video := before + [Info(ssrc, t.cname, t.streamId, t.id)]))
  {
    var msid := t.streamId + " " + t.id;
    LacksAppend(t.streamId, " ", '=');
    LacksAppend(t.streamId + " ", t.id, '=');
    assert !StartsWith(msid, ':');
    hide SsrcLine, LineAfter, InfoSet, WithAttribute;
    SsrcLineReads(a, ssrc, "msid", msid);
    assert SkipAll(msid, ':') == msid;
    LastEntry(before, Info(ssrc, t.cname, "", ""), "msid", msid);
    MsidSets(Info(ssrc, t.cname, "", ""), t.streamId, t.id);
  }

  lemma OtherLineReads(a: Answer, info: Info, before: seq<Info>, attribute: string, value: string)
    requires attribute in {"mslabel", "label"} && Lacks(value, '=')
    requires a.media == "video" && IndexOf(before, info.ssrc) == |before| && a.video == before + [info]
    ensures LineAfter(a, SsrcLine(info.ssrc, attribute, value)) == Some(a)
  {
    OtherName(info, attribute, SkipAll(value, ':'));
    hide SsrcLine, LineAfter, Lacks, InfoSet, WithAttribute, SkipAll;
    SsrcLineReads(a, info.ssrc, attribute, value);
    LastEntry(before, info, attribute, SkipAll(value, ':'));
  }

  lemma OtherName(info: Info, attribute: string, value: string)
    requires attribute in {"mslabel", "label"}
    ensures WithAttribute(info, attribute, value) == Some(info)
    ensures Lacks(attribute, '=') && Lacks(attribute, ':') && attribute != "" && attribute[0] != ' '
  {
    if attribute == "label" {
      assert attribute[0] == 'l' && "cname"[0] == 'c' && "msid"[0] == 'm';
    } else {
      assert attribute == "mslabel";
    }
  }

  /** The four lines of a new SSRC leave one complete entry for it. */
  lemma InfoLinesRead(a: Answer, t: Track, ssrc: uint32)
    requires a.media == "video" && WellNamed(t) && IndexOf(a.video, ssrc) == |a.video|
    ensures LinesAfter(a, InfoLines(t, ssrc)) == Some(a.(video := a.video + [Info(ssrc, t.cname, t.streamId, t.id)]))
  {
    var b := a.(video := a.video + [Info(ssrc, t.cname, "", "")]);
    var full := Info(ssrc, t.cname, t.streamId, t.id);
    var c := a.(video := a.video + [full]);
    hide LineAfter, SsrcLine, LinesAfter, Lacks;
    CnameLineReads(a, t, ssrc);
    MsidLineReads(b, t, ssrc, a.video);
    OtherLineReads(c, full, a.video, "mslabel", t.streamId);
    OtherLineReads(c, full, a.video, "label", t.id);
    FourLines(a, b, c, c, c, InfoLines(t, ssrc));
  }

  // ---- The lines of a group ---------------------------------------------------------------------------------

  predicate WellNamedGroup(g: Group) {
    g.semantics != "" && Lacks(g.semantics, '=') && Lacks(g.semantics, ' ') && Lacks(g.semantics, ':')
  }

  function Decimals(ssrcs: seq<uint32>): seq<string> {
    if ssrcs == [] then [] else Decimals(ssrcs[..|ssrcs| - 1]) + [Decimal(ssrcs[|ssrcs| - 1])]
  }

  lemma {:induction false} SsrcListSplits(front: string, ssrcs: seq<uint32>)
    requires Lacks(front, ' ')
    ensures Split(front + SsrcList(ssrcs), ' ') == [front] + Decimals(ssrcs)
  {
    if ssrcs == [] {
      assert front + "" == front;
      SplitWhole(front, ' ');
    } else {
      var before, last := ssrcs[..|ssrcs| - 1], Decimal(ssrcs[|ssrcs| - 1]);
      SsrcListSplits(front, before);
      DecimalLacks(ssrcs[|ssrcs| - 1], ' ');
      assert front + SsrcList(ssrcs) == (front + SsrcList(before)) + [' '] + last;
      SplitLast(front + SsrcList(before), ' ', last);
      AppendAssoc([front], Decimals(before), [last]);
    }
  }

  lemma DecimalParses(n: uint32)
    ensures FromString(Decimal(n)) == Some(n)
  {
    DecimalReads(n);
  }

  lemma {:induction false} SsrcsRead(ssrcs: seq<uint32>)
    ensures Ssrcs(Decimals(ssrcs)) == Some(ssrcs)
  {
    if ssrcs != [] {
      var last := |ssrcs| - 1;
      SsrcsRead(ssrcs[..last]);
      DecimalParses(ssrcs[last]);
      hide FromString, Decimal;
      assert Decimals(ssrcs)[..|Decimals(ssrcs)| - 1] == Decimals(ssrcs[..last]);
      assert ssrcs == ssrcs[..last] + [ssrcs[last]];
    }
  }

  lemma {:induction false} SsrcListLacks(ssrcs: seq<uint32>, mark: char)
    requires !IsDigit(mark) && mark != ' '
    ensures Lacks(SsrcList(ssrcs), mark)
  {
    if ssrcs != [] {
      var before, last := ssrcs[..|ssrcs| - 1], ssrcs[|ssrcs| - 1];
      SsrcListLacks(before, mark);
      DecimalLacks(last, mark);
      LacksAppend(SsrcList(before), " ", mark);
      LacksAppend(SsrcList(before) + " ", Decimal(last), mark);
    }
  }

  lemma SemanticsRead(semantics: string)
    requires semantics != "" && Lacks(semantics, ':')
    ensures Attribute("ssrc-group:" + semantics) == semantics
  {
    var name := "ssrc-group";
    assert "ssrc-group:" + semantics == name + [':'] + semantics;
    TokenizeAt(name, ':', semantics);
    TokenizeWhole(semantics, ':');
  }

  lemma GroupLineReads(a: Answer, g: Group)
    requires a.media == "video" && WellNamedGroup(g) && g.ssrcs != []
    ensures LineAfter(a, GroupLine(g)) == Some(a.(groups := a.groups + [g]))
  {
    var line := GroupLine(g);
    var front := "ssrc-group:" + g.semantics;
    var rest := front + SsrcList(g.ssrcs);
    hide Lacks, NotMedia, Contains, GroupLine, GroupInfoAfter, SsrcFields, Attribute, SsrcList, TransportAfter;
    GroupLineShape(g);
    AttributeLine(rest);
    assert "ssrc" <= rest;
    NoTransportLine(rest, a.videoTransport, a.valid);
    SemanticsRead(g.semantics);
    GroupFieldsRead(a.groups, line, front, g);
  }

  lemma GroupLineShape(g: Group)
    requires WellNamedGroup(g)
    ensures var rest := "ssrc-group:" + g.semantics + SsrcList(g.ssrcs);
            && GroupLine(g) == "a=" + rest && Lacks(rest, '=')
    ensures "a=ssrc-group:" <= GroupLine(g) && !("a=ssrc:" <= GroupLine(g))
    ensures Lacks("ssrc-group:" + g.semantics, ' ')
  {
    var front := "ssrc-group:" + g.semantics;
    LacksAppend("ssrc-group:", g.semantics, '=');
    LacksAppend("ssrc-group:", g.semantics, ' ');
    SsrcListLacks(g.ssrcs, '=');
    LacksAppend(front, SsrcList(g.ssrcs), '=');
    hide Lacks, SsrcList;
    assert "a=ssrc-group:" == "a=" + "ssrc-group:";
    AppendAssoc("a=", "ssrc-group:", g.semantics);
    AppendAssoc("a=", front, SsrcList(g.ssrcs));
    AppendAssoc("a=ssrc-group:", g.semantics, SsrcList(g.ssrcs));
    assert GroupLine(g)[6] == '-' && "a=ssrc:"[6] == ':';
  }

  lemma GroupFieldsRead(groups: seq<Group>, line: string, front: string, g: Group)
    requires g.semantics != "" && Attribute(front) == g.semantics && Lacks(front, ' ')
    requires g.ssrcs != [] && Contains(line, "a=ssrc-group:")
    requires |line| >= 2 && line[2..] == front + SsrcList(g.ssrcs)
    ensures GroupInfoAfter(groups, line) == Some(groups + [g])
  {
    hide Contains, Split, Attribute, Lacks, SsrcList;
    SsrcListSplits(front, g.ssrcs);
    SsrcsRead(g.ssrcs);
    assert Split(line[2..], ' ')[1..] == Decimals(g.ssrcs);
    DecimalsLength(g.ssrcs);
  }

  lemma {:induction false} DecimalsLength(ssrcs: seq<uint32>)
    ensures |Decimals(ssrcs)| == |ssrcs|
  {
    if ssrcs != [] {
      DecimalsLength(ssrcs[..|ssrcs| - 1]);
    }
  }

  // ---- The lines of all tracks --------------------------------------------------------------------------------

  function TrackInfos(t: Track, ssrcs: seq<uint32>): seq<Info> {
    if ssrcs == [] then []
    else TrackInfos(t, ssrcs[..|ssrcs| - 1]) + [Info(ssrcs[|ssrcs| - 1], t.cname, t.streamId, t.id)]
  }

  function TracksInfos(tracks: seq<Track>): seq<Info> {
    if tracks == [] then []
    else
      var last := tracks[|tracks| - 1];
      TracksInfos(tracks[..|tracks| - 1]) + TrackInfos(last, last.ssrcs)
  }

  function TracksGroups(tracks: seq<Track>): seq<Group> {
    if tracks == [] then [] else TracksGroups(tracks[..|tracks| - 1]) + tracks[|tracks| - 1].groups
  }

  predicate Absent(infos: seq<Info>, ssrc: uint32) {
    forall i :: 0 <= i < |infos| ==> infos[i].ssrc != ssrc
  }

  predicate NoRepeats(ssrcs: seq<uint32>) {
    forall i, j :: 0 <= i < j < |ssrcs| ==> ssrcs[i] != ssrcs[j]
  }

  lemma AbsentAppend(a: seq<Info>, b: seq<Info>, ssrc: uint32)
    ensures Absent(a + b, ssrc) <==> Absent(a, ssrc) && Absent(b, ssrc)
  {
    var c := a + b;
    assert forall i :: 0 <= i < |a| ==> c[i] == a[i];
    assert forall i :: 0 <= i < |b| ==> c[|a| + i] == b[i];
  }

  lemma {:induction false} TrackInfosAbsent(t: Track, ssrcs: seq<uint32>, ssrc: uint32)
    requires ssrc !in ssrcs
    ensures Absent(TrackInfos(t, ssrcs), ssrc)
  {
    if ssrcs != [] {
      var last := |ssrcs| - 1;
      TrackInfosAbsent(t, ssrcs[..last], ssrc);
      assert ssrcs[last] in ssrcs;
      AbsentAppend(TrackInfos(t, ssrcs[..last]), [Info(ssrcs[last], t.cname, t.streamId, t.id)], ssrc);
    }
  }

  lemma {:induction false} SsrcLinesRead(a: Answer, t: Track, ssrcs: seq<uint32>)
    requires a.media == "video" && WellNamed(t) && NoRepeats(ssrcs)
    requires forall i :: 0 <= i < |ssrcs| ==> Absent(a.video, ssrcs[i])
    ensures LinesAfter(a, SsrcLines(t, ssrcs)) == Some(a.(video := a.video + TrackInfos(t, ssrcs)))
  {
    if ssrcs == [] {
      AppendNothing(a.video);
    } else {
      var before, last := ssrcs[..|ssrcs| - 1], ssrcs[|ssrcs| - 1];
      SsrcLinesRead(a, t, before);
      var b := a.(video := a.video + TrackInfos(t, before));
      assert last !in before;
      hide LinesAfter, WellNamed, InfoLines, NoRepeats;
      TrackInfosAbsent(t, before, last);
      AbsentAppend(a.video, TrackInfos(t, before), last);
      InfoLinesRead(b, t, last);
      LinesAppend(a, SsrcLines(t, before), InfoLines(t, last));
      AppendAssoc(a.video, TrackInfos(t, before), [Info(last, t.cname, t.streamId, t.id)]);
    }
  }

  predicate GroupsFit(t: Track, groups: seq<Group>) {
    forall i :: 0 <= i < |groups| ==> WellNamedGroup(groups[i]) && Takes(t, groups[i])
  }

  lemma {:induction false} GroupLinesRead(a: Answer, t: Track, groups: seq<Group>)
    requires a.media == "video" && GroupsFit(t, groups)
    ensures LinesAfter(a, GroupLines(groups)) == Some(a.(groups := a.groups + groups))
  {
    if groups == [] {
      AppendNothing(a.groups);
    } else {
      var before, last := groups[..|groups| - 1], groups[|groups| - 1];
      GroupLinesRead(a, t, before);
      var b := a.(groups := a.groups + before);
      hide LinesAfter, LineAfter, WellNamedGroup, GroupLine;
      GroupLineReads(b, last);
      OneLine(b, GroupLine(last));
      LinesAppend(a, GroupLines(before), [GroupLine(last)]);
      AppendAssoc(a.groups, before, [last]);
      assert groups == before + [last];
    }
  }

  /** Tracks whose names survive printing and whose groups start with one of their own SSRCs. */
  predicate Printable(t: Track) {
    && WellNamed(t) && t.ssrcs != [] && NoRepeats(t.ssrcs) && GroupsFit(t, t.groups)
  }

  predicate Disjoint(s: Track, t: Track) {
    && s.id != t.id
    && forall i, j :: 0 <= i < |s.ssrcs| && 0 <= j < |t.ssrcs| ==> s.ssrcs[i] != t.ssrcs[j]
  }

  predicate AllPrintable(tracks: seq<Track>) {
    && (forall i :: 0 <= i < |tracks| ==> Printable(tracks[i]))
    && (forall i, j :: 0 <= i < j < |tracks| ==> Disjoint(tracks[i], tracks[j]))
  }

  lemma TrackLinesRead(a: Answer, t: Track)
    requires a.media == "video" && Printable(t)
    requires forall i :: 0 <= i < |t.ssrcs| ==> Absent(a.video, t.ssrcs[i])
    ensures LinesAfter(a, TrackLines(t)) ==
            Some(a.(groups := a.groups + t.groups, video := a.video + TrackInfos(t, t.ssrcs)))
  {
    var b := a.(groups := a.groups + t.groups);
    GroupLinesRead(a, t, t.groups);
    SsrcLinesRead(b, t, t.ssrcs);
    LinesAppend(a, GroupLines(t.groups), SsrcLines(t, t.ssrcs));
  }

  lemma {:induction false} OthersAbsent(tracks: seq<Track>, t: Track, k: nat)
    requires k < |t.ssrcs| && forall i :: 0 <= i < |tracks| ==> Disjoint(tracks[i], t)
    ensures Absent(TracksInfos(tracks), t.ssrcs[k])
  {
    if tracks != [] {
      var before, last := tracks[..|tracks| - 1], tracks[|tracks| - 1];
      OthersAbsent(before, t, k);
      TrackInfosAbsent(last, last.ssrcs, t.ssrcs[k]);
      AbsentAppend(TracksInfos(before), TrackInfos(last, last.ssrcs), t.ssrcs[k]);
    }
  }

  /** Reading the printed lines of all tracks collects every SSRC and every group, in order. */
  lemma {:induction false} TracksLinesRead(a: Answer, tracks: seq<Track>)
    requires a.media == "video" && a.video == [] && AllPrintable(tracks)
    ensures LinesAfter(a, TracksLines(tracks)) ==
            Some(a.(groups := a.groups + TracksGroups(tracks), video := TracksInfos(tracks)))
  {
    if tracks == [] {
      AppendNothing(a.groups);
    } else {
      var before, last := tracks[..|tracks| - 1], tracks[|tracks| - 1];
      TracksLinesRead(a, before);
      hide LinesAfter, Printable, Disjoint, TrackLines, Absent;
      var b := a.(groups := a.groups + TracksGroups(before), video := TracksInfos(before));
      forall k | 0 <= k < |last.ssrcs|
        ensures Absent(b.video, last.ssrcs[k])
      {
        OthersAbsent(before, last, k);
      }
      TrackLinesRead(b, last);
      LinesAppend(a, TracksLines(before), TrackLines(last));
      AppendAssoc(a.groups, TracksGroups(before), last.groups);
    }
  }

  // ---- Rebuilding gives the tracks back -------------------------------------------------------------------------

  function Bare(tracks: seq<Track>): (r: seq<Track>)
    ensures |r| == |tracks|
    ensures forall i :: 0 <= i < |tracks| ==> r[i] == tracks[i].(groups := [])
  {
    if tracks == [] then [] else Bare(tracks[..|tracks| - 1]) + [tracks[|tracks| - 1].(groups := [])]
  }

  lemma NewTrack(tracks: seq<Track>, t: Track, ssrc: uint32)
    requires forall i :: 0 <= i < |tracks| ==> tracks[i].id != t.id
    ensures InfoAdded(tracks, Info(ssrc, t.cname, t.streamId, t.id)) ==
            tracks + [Track(t.id, [ssrc], [], t.cname, t.streamId)]
  {
  }

  lemma SameTrack(tracks: seq<Track>, t: Track, ssrcs: seq<uint32>, ssrc: uint32)
    requires forall i :: 0 <= i < |tracks| ==> tracks[i].id != t.id
    ensures InfoAdded(tracks + [Track(t.id, ssrcs, [], t.cname, t.streamId)], Info(ssrc, t.cname, t.streamId, t.id)) ==
            tracks + [Track(t.id, ssrcs + [ssrc], [], t.cname, t.streamId)]
  {
    var old' := Track(t.id, ssrcs, [], t.cname, t.streamId);
    var all := tracks + [old'];
    assert forall i :: 0 <= i < |tracks| ==> all[i] == tracks[i];
    assert all[|tracks|] == old';
    assert IndexOfTrack(all, t.id) == |tracks|;
    ReplaceLast(tracks, old', Track(t.id, ssrcs + [ssrc], [], t.cname, t.streamId));
  }

  lemma {:induction false} TrackRebuilt(infos: seq<Info>, t: Track, ssrcs: seq<uint32>)
    requires ssrcs != []
    requires forall i :: 0 <= i < |TracksOf(infos)| ==> TracksOf(infos)[i].id != t.id
    ensures TracksOf(infos + TrackInfos(t, ssrcs)) ==
            TracksOf(infos) + [Track(t.id, ssrcs, [], t.cname, t.streamId)]
  {
    hide InfoAdded, TracksOf;
    var before, last := ssrcs[..|ssrcs| - 1], ssrcs[|ssrcs| - 1];
    var info := Info(last, t.cname, t.streamId, t.id);
    AppendAssoc(infos, TrackInfos(t, before), [info]);
    LastInfo(infos + TrackInfos(t, before), info);
    assert ssrcs == before + [last];
    if before == [] {
      AppendNothing(infos);
      NewTrack(TracksOf(infos), t, last);
      assert before + [last] == [last];
    } else {
      TrackRebuilt(infos, t, before);
      SameTrack(TracksOf(infos), t, before, last);
    }
  }

  lemma LastInfo(infos: seq<Info>, info: Info)
    ensures TracksOf(infos + [info]) == InfoAdded(TracksOf(infos), info)
  {
    assert (infos + [info])[..|infos|] == infos;
  }

  lemma {:induction false} TracksRebuilt(tracks: seq<Track>)
    requires AllPrintable(tracks)
    ensures TracksOf(TracksInfos(tracks)) == Bare(tracks)
  {
    if tracks != [] {
      var before, last := tracks[..|tracks| - 1], tracks[|tracks| - 1];
      TracksRebuilt(before);
      assert forall i :: 0 <= i < |before| ==> Disjoint(before[i], last);
      assert forall i :: 0 <= i < |before| ==> before[i].id != last.id;
      hide InfoAdded, Disjoint;
      TrackRebuilt(TracksInfos(before), last, last.ssrcs);
    }
  }

  /** The groups that a track takes. */
  function Taken(t: Track, groups: seq<Group>): seq<Group> {
    if groups == [] then []
    else
      var last := groups[|groups| - 1];
      Taken(t, groups[..|groups| - 1]) + if Takes(t, last) then [last] else []
  }

  lemma {:induction false} AttachedAt(tracks: seq<Track>, g: Group, i: nat)
    requires i < |tracks|
    ensures Attached(tracks, g)[i] ==
            if Takes(tracks[i], g) then tracks[i].(groups := tracks[i].groups + [g]) else tracks[i]
  {
    if i < |tracks| - 1 {
      AttachedAt(tracks[..|tracks| - 1], g, i);
    }
  }

  lemma {:induction false} AllAttachedAt(tracks: seq<Track>, groups: seq<Group>, i: nat)
    requires i < |tracks|
    ensures AllAttached(tracks, groups)[i] == tracks[i].(groups := tracks[i].groups + Taken(tracks[i], groups))
  {
    if groups == [] {
      AppendNothing(tracks[i].groups);
    } else {
      var before, last := groups[..|groups| - 1], groups[|groups| - 1];
      AllAttachedAt(tracks, before, i);
      AttachedAt(AllAttached(tracks, before), last, i);
      AppendAssoc(tracks[i].groups, Taken(tracks[i], before), if Takes(tracks[i], last) then [last] else []);
      AppendNothing(tracks[i].groups + Taken(tracks[i], before));
    }
  }

  lemma {:induction false} TakenAppend(t: Track, a: seq<Group>, b: seq<Group>)
    ensures Taken(t, a + b) == Taken(t, a) + Taken(t, b)
  {
    if b == [] {
      assert a + b == a;
    } else {
      var last := |b| - 1;
      assert (a + b)[..|a| + last] == a + b[..last];
      TakenAppend(t, a, b[..last]);
      AppendAssoc(Taken(t, a), Taken(t, b[..last]), if Takes(t, b[last]) then [b[last]] else []);
    }
  }

  /** A track takes all groups that start with its own SSRCs and none of a disjoint track. */
  lemma {:induction false} TakesOwn(t: Track, groups: seq<Group>)
    requires GroupsFit(t, groups)
    ensures Taken(t, groups) == groups
  {
    if groups != [] {
      var last := |groups| - 1;
      TakesOwn(t, groups[..last]);
      assert groups == groups[..last] + [groups[last]];
    }
  }

  lemma {:induction false} TakesNoOther(s: Track, t: Track, groups: seq<Group>)
    requires GroupsFit(t, groups) && forall x :: x in t.ssrcs ==> x !in s.ssrcs
    ensures Taken(s, groups) == []
  {
    if groups != [] {
      TakesNoOther(s, t, groups[..|groups| - 1]);
    }
  }

  lemma PairFacts(tracks: seq<Track>, i: nat, j: nat)
    requires AllPrintable(tracks) && i < |tracks| && j < |tracks|
    ensures GroupsFit(tracks[j], tracks[j].groups)
    ensures i != j ==> forall x :: x in tracks[j].ssrcs ==> x !in tracks[i].ssrcs
  {
  }

  lemma TracksGroupsStep(tracks: seq<Track>, k: nat)
    requires 0 < k <= |tracks|
    ensures TracksGroups(tracks[..k]) == TracksGroups(tracks[..k - 1]) + tracks[k - 1].groups
  {
    assert tracks[..k][..k - 1] == tracks[..k - 1];
  }

  lemma GroupsReturnStep(tracks: seq<Track>, k: nat, i: nat)
    requires AllPrintable(tracks) && i < |tracks| && 0 < k <= |tracks|
    requires Taken(tracks[i], TracksGroups(tracks[..k - 1])) == if i < k - 1 then tracks[i].groups else []
    ensures Taken(tracks[i], TracksGroups(tracks[..k])) == if i < k then tracks[i].groups else []
  {
    hide *;
    var before, last := TracksGroups(tracks[..k - 1]), tracks[k - 1];
    PairFacts(tracks, i, k - 1);
    TracksGroupsStep(tracks, k);
    TakenAppend(tracks[i], before, last.groups);
    if i == k - 1 {
      TakesOwn(last, last.groups);
      assert [] + last.groups == last.groups;
    } else {
      TakesNoOther(tracks[i], last, last.groups);
      AppendNothing(Taken(tracks[i], before));
    }
  }

  lemma {:induction false} GroupsReturn(tracks: seq<Track>, k: nat, i: nat)
    requires AllPrintable(tracks) && i < |tracks| && k <= |tracks|
    ensures Taken(tracks[i], TracksGroups(tracks[..k])) == if i < k then tracks[i].groups else []
  {
    if k > 0 {
      GroupsReturn(tracks, k - 1, i);
      GroupsReturnStep(tracks, k, i);
    }
  }

  lemma TakenIgnoresGroups(t: Track, groups: seq<Group>)
    ensures Taken(t.(groups := []), groups) == Taken(t, groups)
  {
    if groups != [] {
      TakenIgnoresGroups(t, groups[..|groups| - 1]);
    }
  }

  lemma GroupsReattached(tracks: seq<Track>)
    requires AllPrintable(tracks)
    ensures AllAttached(Bare(tracks), TracksGroups(tracks)) == tracks
  {
    var r := AllAttached(Bare(tracks), TracksGroups(tracks));
    assert tracks[..|tracks|] == tracks;
    forall i | 0 <= i < |tracks|
      ensures r[i] == tracks[i]
    {
      AllAttachedAt(Bare(tracks), TracksGroups(tracks), i);
      TakenIgnoresGroups(tracks[i], TracksGroups(tracks));
      GroupsReturn(tracks, |tracks|, i);
      assert [] + tracks[i].groups == tracks[i].groups;
    }
  }

  /** Line by line: parsing the printed lines and rebuilding gives back exactly the tracks. */
  lemma LinesRoundTrip(a: Answer, tracks: seq<Track>)
    requires a.media == "video" && a.video == [] && a.groups == [] && AllPrintable(tracks)
    ensures LinesAfter(a, TracksLines(tracks)).Some?
    ensures var b := LinesAfter(a, TracksLines(tracks)).value;
            AllAttached(TracksOf(b.video), b.groups) == tracks
  {
    hide LinesAfter, TracksLines, TracksOf, AllAttached, TracksInfos, TracksGroups, AllPrintable;
    TracksLinesRead(a, tracks);
    assert [] + TracksGroups(tracks) == TracksGroups(tracks);
    TracksRebuilt(tracks);
    GroupsReattached(tracks);
  }

  // ---- The text -----------------------------------------------------------------------------------------------

  predicate OnOneLine(t: Track) {
    && Lacks(t.cname, '\n') && Lacks(t.streamId, '\n') && Lacks(t.id, '\n')
    && forall i :: 0 <= i < |t.groups| ==> Lacks(t.groups[i].semantics, '\n')
  }

  predicate NoBreaks(lines: seq<string>) {
    forall i :: 0 <= i < |lines| ==> Lacks(lines[i], '\n')
  }

  lemma NoBreaksAppend(a: seq<string>, b: seq<string>)
    ensures NoBreaks(a + b) <==> NoBreaks(a) && NoBreaks(b)
  {
    hide Lacks;
    var c := a + b;
    assert forall i :: 0 <= i < |a| ==> c[i] == a[i];
    assert forall i :: 0 <= i < |b| ==> c[|a| + i] == b[i];
  }

  lemma SsrcLineUnbroken(ssrc: uint32, attribute: string, value: string)
    requires Lacks(attribute, '\n') && Lacks(value, '\n')
    ensures Lacks(SsrcLine(ssrc, attribute, value), '\n')
  {
    DecimalLacks(ssrc, '\n');
    LacksAppend("a=ssrc:", Decimal(ssrc), '\n');
    LacksAppend("a=ssrc:" + Decimal(ssrc), " ", '\n');
    LacksAppend("a=ssrc:" + Decimal(ssrc) + " ", attribute, '\n');
    LacksAppend("a=ssrc:" + Decimal(ssrc) + " " + attribute, ":", '\n');
    LacksAppend("a=ssrc:" + Decimal(ssrc) + " " + attribute + ":", value, '\n');
  }

  lemma {:induction false} SsrcLinesUnbroken(t: Track, ssrcs: seq<uint32>)
    requires OnOneLine(t)
    ensures NoBreaks(SsrcLines(t, ssrcs))
  {
    if ssrcs != [] {
      var before, last := ssrcs[..|ssrcs| - 1], ssrcs[|ssrcs| - 1];
      SsrcLinesUnbroken(t, before);
      LacksAppend(t.streamId, " ", '\n');
      LacksAppend(t.streamId + " ", t.id, '\n');
      SsrcLineUnbroken(last, "cname", t.cname);
      SsrcLineUnbroken(last, "msid", t.streamId + " " + t.id);
      SsrcLineUnbroken(last, "mslabel", t.streamId);
      SsrcLineUnbroken(last, "label", t.id);
      hide Lacks, SsrcLine;
      NoBreaksAppend(SsrcLines(t, before), InfoLines(t, last));
    }
  }

  lemma {:induction false} GroupLinesUnbroken(groups: seq<Group>)
    requires forall i :: 0 <= i < |groups| ==> Lacks(groups[i].semantics, '\n')
    ensures NoBreaks(GroupLines(groups))
  {
    if groups != [] {
      var before, last := groups[..|groups| - 1], groups[|groups| - 1];
      GroupLinesUnbroken(before);
      SsrcListLacks(last.ssrcs, '\n');
      LacksAppend("a=ssrc-group:", last.semantics, '\n');
      LacksAppend("a=ssrc-group:" + last.semantics, SsrcList(last.ssrcs), '\n');
      hide Lacks, GroupLine;
      NoBreaksAppend(GroupLines(before), [GroupLine(last)]);
    }
  }

  lemma {:induction false} TracksLinesUnbroken(tracks: seq<Track>)
    requires forall i :: 0 <= i < |tracks| ==> OnOneLine(tracks[i])
    ensures NoBreaks(TracksLines(tracks))
  {
    if tracks != [] {
      var before, last := tracks[..|tracks| - 1], tracks[|tracks| - 1];
      TracksLinesUnbroken(before);
      GroupLinesUnbroken(last.groups);
      SsrcLinesUnbroken(last, last.ssrcs);
      hide Lacks, NoBreaks;
      NoBreaksAppend(GroupLines(last.groups), SsrcLines(last, last.ssrcs));
      NoBreaksAppend(TracksLines(before), TrackLines(last));
    }
  }

  lemma {:induction false} EndedFront(line: string, lines: seq<string>)
    ensures Ended([line] + lines) == line + "\r" + ['\n'] + Ended(lines)
  {
    var all := [line] + lines;
    if lines == [] {
      assert all == [line] && all[..0] == [];
    } else {
      var last := |lines| - 1;
      assert all[..|all| - 1] == [line] + lines[..last];
      EndedFront(line, lines[..last]);
      var front := line + "\r" + ['\n'];
      AppendAssoc(front, Ended(lines[..last]), lines[last]);
      AppendAssoc(front, Ended(lines[..last]) + lines[last], "\r\n");
    }
  }

  /** Cutting the text at the line feeds gives the lines, each with its carriage return. */
  lemma {:induction false} EndedTokenizes(lines: seq<string>)
    requires NoBreaks(lines)
    ensures var fields := Tokenize(Ended(lines), '\n');
            |fields| == |lines| && forall i :: 0 <= i < |lines| ==> fields[i] == lines[i] + "\r"
  {
    if lines == [] {
    } else {
      var rest := lines[1..];
      assert lines == [lines[0]] + rest;
      EndedTokenizes(rest);
      EndedFront(lines[0], rest);
      LacksAppend(lines[0], "\r", '\n');
      TokenizeAt(lines[0] + "\r", '\n', Ended(rest));
    }
  }

  lemma {:induction false} StrippedAt(fields: seq<string>, lines: seq<string>)
    requires |fields| == |lines| && forall i :: 0 <= i < |lines| ==> fields[i] == lines[i] + "\r"
    ensures Stripped(fields, true) == lines
  {
    if lines != [] {
      var last := |lines| - 1;
      StrippedAt(fields[..last], lines[..last]);
      assert (lines[last] + "\r")[..|lines[last]|] == lines[last];
      assert lines == lines[..last] + [lines[last]];
    }
  }

  lemma EndedHasBreak(lines: seq<string>)
    requires lines != []
    ensures Contains(Ended(lines), "\r\n")
  {
    var last := |lines| - 1;
    var front := Ended(lines[..last]) + lines[last];
    assert Ended(lines) == front + "\r\n";
    assert StandsAt(Ended(lines), "\r\n", |front|);
  }

  /**
   * The whole text: after any lines that open the video medium without SSRCs of their own, the printed tracks are
   * parsed back to the same list, with the order of tracks, SSRCs and groups, the names and the identifiers.
   */
  lemma TextRoundTrip(front: seq<string>, a: Answer, tracks: seq<Track>, valid: Fingerprints)
    requires front != [] && NoBreaks(front)
    requires LinesAfter(Start(valid), front) == Some(a)
    requires a.media == "video" && a.video == [] && a.groups == []
    requires AllPrintable(tracks) && forall i :: 0 <= i < |tracks| ==> OnOneLine(tracks[i])
    ensures RemoteDescription(Ended(front + TracksLines(tracks)), valid) ==
            Some(Remote(TracksOf(a.audio), tracks, a.audioTransport, a.videoTransport))
  {
    TracksLinesUnbroken(tracks);
    NoBreaksAppend(front, TracksLines(tracks));
    TextReads(front + TracksLines(tracks), valid);
    LinesAppend(Start(valid), front, TracksLines(tracks));
    hide LinesAfter, AllPrintable, Ended;
    LinesRoundTrip(a, tracks);
    TracksLinesRead(a, tracks);
  }

  /** A text with its line ends is read line by line. */
  lemma TextReads(lines: seq<string>, valid: Fingerprints)
    requires lines != [] && NoBreaks(lines)
    ensures RemoteDescription(Ended(lines), valid) ==
            match LinesAfter(Start(valid), lines)
            case None => None
            case Some(a) => Some(Described(a))
  {
    EndedTokenizes(lines);
    EndedHasBreak(lines);
    StrippedAt(Tokenize(Ended(lines), '\n'), lines);
  }

  predicate Medium(name: string) {
    name == "audio" || name == "video"
  }

  /** A media line of at least three fields opens its medium. */
  lemma MediaLineOpens(a: Answer, medium: string, rest: string)
    requires Medium(medium) && Lacks(rest, '=') && ' ' in rest
    ensures LineAfter(a, "m=" + medium + " " + rest) == Some(a.(media := medium))
  {
    MediaNamed(a.media, medium, rest);
    OnlyMediaLine(medium, rest, a.audioTransport, a.valid);
    OnlyMediaLine(medium, rest, a.videoTransport, a.valid);
    hide Contains, MediaAfter, TransportAfter, Lacks;
  }

  lemma MediaNamed(media: string, medium: string, rest: string)
    requires Medium(medium) && Lacks(rest, '=') && ' ' in rest
    ensures MediaAfter(media, "m=" + medium + " " + rest) == Some(medium)
  {
    var name := "m=" + medium;
    var line := name + " " + rest;
    assert line[2] == medium[0] && "m=group:BUNDLE"[2] == 'g';
    assert forall i :: 8 <= i < |line| ==> line[i] == rest[i - 8];
    FoundInFront(line, "m=group:BUNDLE", '=');
    FoundInFront(line, "m=", '=');
    assert "m=" <= line;
    assert line == name + [' '] + rest;
    SplitAt(name, ' ', rest);
    SplitMany(rest, ' ');
    assert name[2..] == medium;
  }

  lemma OnlyMediaLine(medium: string, rest: string, td: Transport, valid: Fingerprints)
    requires Medium(medium) && Lacks(rest, '=')
    ensures var line := "m=" + medium + " " + rest;
            && !Contains(line, "a=ssrc:") && !Contains(line, "a=ssrc-group:")
            && TransportAfter(td, line, valid) == Some(td)
  {
    var line := "m=" + medium + " " + rest;
    assert forall i :: 8 <= i < |line| ==> line[i] == rest[i - 8];
    FoundInFront(line, "a=ssrc:", '=');
    FoundInFront(line, "a=ssrc-group:", '=');
    FoundInFront(line, "a=ice-ufrag", '=');
    FoundInFront(line, "a=ice-pwd", '=');
    FoundInFront(line, "a=fingerprint", '=');
    assert line[0] == 'm' && "a=ssrc:"[0] == 'a' && "a=ssrc-group:"[0] == 'a';
    assert "a=ice-ufrag"[0] == 'a' && "a=ice-pwd"[0] == 'a' && "a=fingerprint"[0] == 'a';
  }

  // ---- A whole section ----------------------------------------------------------------------------------------

  function TransportLines(ufrag: string, pwd: string, alg: string, digest: string): seq<string> {
    ["a=ice-ufrag:" + ufrag, "a=ice-pwd:" + pwd, "a=fingerprint:" + alg + " " + digest]
  }

  /** Credentials that survive their lines: not empty and without the delimiters. */
  predicate Plain(s: string) {
    s != "" && Lacks(s, '=') && Lacks(s, ':') && Lacks(s, ' ') && Lacks(s, '\n')
  }

  /** A digest is written with colons. */
  predicate PlainDigest(s: string) {
    s != "" && Lacks(s, '=') && Lacks(s, ' ') && Lacks(s, '\n')
  }

  lemma UfragReads(td: Transport, ufrag: string, valid: Fingerprints)
    requires Plain(ufrag)
    ensures TransportAfter(td, "a=ice-ufrag:" + ufrag, valid) == Some(td.(ufrag := ufrag))
  {
    var name := "a=ice-ufrag";
    var line := "a=ice-ufrag:" + ufrag;
    assert line == name + [':'] + ufrag;
    TokenizeAt(name, ':', ufrag);
    TokenizeWhole(ufrag, ':');
    assert StandsAt(line, name, 0);
  }

  lemma PwdReads(td: Transport, pwd: string, valid: Fingerprints)
    requires Plain(pwd)
    ensures TransportAfter(td, "a=ice-pwd:" + pwd, valid) == Some(td.(pwd := pwd))
  {
    var name := "a=ice-pwd";
    var line := "a=ice-pwd:" + pwd;
    assert line == name + [':'] + pwd;
    TokenizeAt(name, ':', pwd);
    TokenizeWhole(pwd, ':');
    assert StandsAt(line, name, 0);
    assert forall i :: 10 <= i < |line| ==> line[i] == pwd[i - 10];
    FoundInFront(line, "a=ice-ufrag", '=');
    assert line[6] == 'p' && "a=ice-ufrag"[6] == 'u';
  }

  lemma FingerprintReads(td: Transport, alg: string, digest: string, valid: Fingerprints)
    requires Plain(alg) && PlainDigest(digest) && valid(Lower(alg), digest)
    ensures TransportAfter(td, "a=fingerprint:" + alg + " " + digest, valid) ==
            Some(td.(fingerprint := Some((Lower(alg), digest))))
  {
    var name := "a=fingerprint:" + alg;
    var line := name + " " + digest;
    assert line == name + [' '] + digest;
    LacksAppend("a=fingerprint:", alg, ' ');
    TokenizeAt(name, ' ', digest);
    TokenizeWhole(digest, ' ');
    assert name[14..] == alg;
    assert line[..13] == "a=fingerprint";
    assert StandsAt(line, "a=fingerprint", 0);
    LacksAppend(alg, " ", '=');
    LacksAppend(alg + " ", digest, '=');
    assert forall i :: 14 <= i < |line| ==> line[i] == (alg + " " + digest)[i - 14];
    FoundInFront(line, "a=ice-ufrag", '=');
    FoundInFront(line, "a=ice-pwd", '=');
    assert line[2] == 'f' && "a=ice-ufrag"[2] == 'i' && "a=ice-pwd"[2] == 'i';
  }

  lemma TransportLineReads(a: Answer, rest: string, td: Transport)
    requires a.media == "video" && Lacks(rest, '=') && rest != "" && rest[0] != 's'
    requires TransportAfter(a.videoTransport, "a=" + rest, a.valid) == Some(td)
    ensures LineAfter(a, "a=" + rest) == Some(a.(videoTransport := td))
  {
    AttributeLine(rest);
    assert ("a=" + rest)[2] == rest[0] && "a=ssrc:"[2] == 's' && "a=ssrc-group:"[2] == 's';
    hide Contains, TransportAfter, NotMedia;
  }

  lemma TransportLinesRead(a: Answer, ufrag: string, pwd: string, alg: string, digest: string)
    requires a.media == "video" && Plain(ufrag) && Plain(pwd) && Plain(alg) && PlainDigest(digest)
    requires a.valid(Lower(alg), digest)
    ensures LinesAfter(a, TransportLines(ufrag, pwd, alg, digest)) ==
            Some(a.(videoTransport := Transport(ufrag, pwd, Some((Lower(alg), digest)))))
  {
    var td := a.videoTransport;
    UfragReads(td, ufrag, a.valid);
    PwdReads(td.(ufrag := ufrag), pwd, a.valid);
    FingerprintReads(td.(ufrag := ufrag, pwd := pwd), alg, digest, a.valid);
    TransportRests(ufrag, pwd, alg, digest);
    var b := a.(videoTransport := td.(ufrag := ufrag));
    var c := a.(videoTransport := td.(ufrag := ufrag, pwd := pwd));
    hide TransportAfter, Lacks, Plain, PlainDigest, LineAfter;
    TransportLineReads(a, "ice-ufrag:" + ufrag, b.videoTransport);
    TransportLineReads(b, "ice-pwd:" + pwd, c.videoTransport);
    TransportLineReads(c, "fingerprint:" + alg + " " + digest, Transport(ufrag, pwd, Some((Lower(alg), digest))));
    ThreeLines(a, b, c, c.(videoTransport := Transport(ufrag, pwd, Some((Lower(alg), digest)))),
               TransportLines(ufrag, pwd, alg, digest));
  }

  lemma TransportRests(ufrag: string, pwd: string, alg: string, digest: string)
    requires Lacks(ufrag, '=') && Lacks(pwd, '=') && Lacks(alg, '=') && Lacks(digest, '=')
    ensures var lines := TransportLines(ufrag, pwd, alg, digest);
            && lines[0] == "a=" + ("ice-ufrag:" + ufrag) && Lacks("ice-ufrag:" + ufrag, '=')
            && lines[1] == "a=" + ("ice-pwd:" + pwd) && Lacks("ice-pwd:" + pwd, '=')
            && lines[2] == "a=" + ("fingerprint:" + alg + " " + digest)
            && Lacks("fingerprint:" + alg + " " + digest, '=')
  {
    LacksAppend("ice-ufrag:", ufrag, '=');
    LacksAppend("ice-pwd:", pwd, '=');
    LacksAppend("fingerprint:", alg, '=');
    LacksAppend("fingerprint:" + alg, " ", '=');
    LacksAppend("fingerprint:" + alg + " ", digest, '=');
    assert "a=ice-ufrag:" + ufrag == "a=" + ("ice-ufrag:" + ufrag);
    assert "a=ice-pwd:" + pwd == "a=" + ("ice-pwd:" + pwd);
    assert "a=fingerprint:" + alg + " " + digest == "a=" + ("fingerprint:" + alg + " " + digest);
  }

  lemma ThreeLines(a: Answer, b: Answer, c: Answer, d: Answer, lines: seq<string>)
    requires |lines| == 3
    requires LineAfter(a, lines[0]) == Some(b) && LineAfter(b, lines[1]) == Some(c) && LineAfter(c, lines[2]) == Some(d)
    ensures LinesAfter(a, lines) == Some(d)
  {
    hide LineAfter;
    assert lines[..2][..1] == lines[..1] == [lines[0]];
    OneLine(a, lines[0]);
    assert LinesAfter(a, lines[..2]) == Some(c);
  }

  lemma TransportLinesUnbroken(ufrag: string, pwd: string, alg: string, digest: string)
    requires Plain(ufrag) && Plain(pwd) && Plain(alg) && PlainDigest(digest)
    ensures NoBreaks(TransportLines(ufrag, pwd, alg, digest))
  {
    LacksAppend("a=ice-ufrag:", ufrag, '\n');
    LacksAppend("a=ice-pwd:", pwd, '\n');
    LacksAppend("a=fingerprint:", alg, '\n');
    LacksAppend("a=fingerprint:" + alg, " ", '\n');
    LacksAppend("a=fingerprint:" + alg + " ", digest, '\n');
  }

}
