/**
 * The printer and the parser of SSRC lines as loops, each held to its function in module Sdp.
 *
 * A line that is refused ends the reading: the loops return nothing, and the functions have no value, from the first
 * such line on.
 */
module PeerConnections {
  import opened Octets
  import opened Text
  import opened Sdp

  /** `build_ssrc`: the groups of a track, then four lines for each of its SSRCs. */
  method BuildSsrc(tracks: seq<Track>) returns (text: string)
    ensures text == Ended(TracksLines(tracks))
  {
    text := "";
    for i := 0 to |tracks|
      invariant text == Ended(TracksLines(tracks[..i]))
    {
      var t := tracks[i];
      var groups := BuildGroups(t.groups);
      var ssrcs := BuildInfos(t);
      text := text + groups + ssrcs;
      EndedAppend(GroupLines(t.groups), SsrcLines(t, t.ssrcs));
      EndedAppend(TracksLines(tracks[..i]), TrackLines(t));
      AppendAssoc(Ended(TracksLines(tracks[..i])), groups, ssrcs);
      assert tracks[..i + 1][..i] == tracks[..i];
    }
    assert tracks[..|tracks|] == tracks;
  }

  method BuildGroups(groups: seq<Group>) returns (text: string)
    ensures text == Ended(GroupLines(groups))
  {
    text := "";
    for i := 0 to |groups|
      invariant text == Ended(GroupLines(groups[..i]))
    {
      assert groups[..i + 1][..i] == groups[..i];
      var g := groups[i];
      if g.ssrcs == [] {
        AppendNothing(GroupLines(groups[..i]));
        continue;
      }
      var line := "a=ssrc-group:" + g.semantics;
      for k := 0 to |g.ssrcs|
        invariant line == "a=ssrc-group:" + g.semantics + SsrcList(g.ssrcs[..k])
      {
        assert g.ssrcs[..k + 1][..k] == g.ssrcs[..k];
        AppendAssoc("a=ssrc-group:" + g.semantics, SsrcList(g.ssrcs[..k]), " ");
        AppendAssoc("a=ssrc-group:" + g.semantics, SsrcList(g.ssrcs[..k]) + " ", Decimal(g.ssrcs[k]));
        line := line + " " + Decimal(g.ssrcs[k]);
      }
      assert g.ssrcs[..|g.ssrcs|] == g.ssrcs;
      text := text + line + "\r\n";
      EndedOne(GroupLines(groups[..i]), line);
    }
    assert groups[..|groups|] == groups;
  }

  method BuildInfos(t: Track) returns (text: string)
    ensures text == Ended(SsrcLines(t, t.ssrcs))
  {
    hide Ended, SsrcLine;
    var msid := t.streamId + " " + t.id;
    text := "";
    NothingEnded();
    for i := 0 to |t.ssrcs|
      invariant text == Ended(SsrcLines(t, t.ssrcs[..i]))
    {
      assert t.ssrcs[..i + 1][..i] == t.ssrcs[..i];
      text := AddSsrcLine(text, t.ssrcs[i], "cname", t.cname);
      text := AddSsrcLine(text, t.ssrcs[i], "msid", msid);
      text := AddSsrcLine(text, t.ssrcs[i], "mslabel", t.streamId);
      text := AddSsrcLine(text, t.ssrcs[i], "label", t.id);
      FourEnded(SsrcLines(t, t.ssrcs[..i]), InfoLines(t, t.ssrcs[i]));
    }
    assert t.ssrcs[..|t.ssrcs|] == t.ssrcs;
  }

  method AddSsrcLine(text: string, ssrc: uint32, attribute: string, value: string) returns (r: string)
    ensures r == text + SsrcLine(ssrc, attribute, value) + "\r\n"
  {
    r := text + SsrcLine(ssrc, attribute, value) + "\r\n";
  }

  lemma NothingEnded()
    ensures Ended([]) == ""
  {
  }

  lemma EndedOne(lines: seq<string>, line: string)
    ensures Ended(lines + [line]) == Ended(lines) + line + "\r\n"
  {
    assert (lines + [line])[..|lines|] == lines;
  }

  lemma {:induction false} EndedAppend(a: seq<string>, b: seq<string>)
    ensures Ended(a + b) == Ended(a) + Ended(b)
  {
    if b == [] {
      assert a + b == a;
      AppendNothing(Ended(a));
    } else {
      var last := |b| - 1;
      assert (a + b)[..|a| + last] == a + b[..last];
      EndedAppend(a, b[..last]);
      AppendAssoc(Ended(a), Ended(b[..last]), b[last]);
      AppendAssoc(Ended(a), Ended(b[..last]) + b[last], "\r\n");
    }
  }

  lemma FourEnded(a: seq<string>, b: seq<string>)
    requires |b| == 4
    ensures Ended(a + b) == Ended(a) + b[0] + "\r\n" + b[1] + "\r\n" + b[2] + "\r\n" + b[3] + "\r\n"
  {
    hide Ended;
    EndedOne(a, b[0]);
    EndedOne(a + [b[0]], b[1]);
    EndedOne(a + [b[0]] + [b[1]], b[2]);
    EndedOne(a + [b[0]] + [b[1]] + [b[2]], b[3]);
    assert a + b == a + [b[0]] + [b[1]] + [b[2]] + [b[3]];
  }

  // ---- Parsing ----------------------------------------------------------------------------------------

  method FindInfo(infos: seq<Info>, ssrc: uint32) returns (i: nat)
    ensures i == IndexOf(infos, ssrc)
  {
    i := 0;
    while i < |infos| && infos[i].ssrc != ssrc
      invariant i <= |infos| && IndexOf(infos, ssrc) == i + IndexOf(infos[i..], ssrc)
    {
      assert infos[i..][1..] == infos[i + 1..];
      i := i + 1;
    }
  }

  method ParseSsrcInfo(infos: seq<Info>, line: string) returns (r: Option<seq<Info>>)
    ensures r == SsrcInfoAfter(infos, line)
  {
    if !Contains(line, "a=ssrc:") || |line| < 2 {
      return Some(infos);
    }
    var first := TokenizeFirst(line[2..], ' ');
    if first.None? || |first.value.0| < 5 {
      return None;
    }
    var id := FromString(first.value.0[5..]);
    if id.None? {
      return None;
    }
    var second := TokenizeFirst(first.value.1, ':');
    if second.None? {
      return None;
    }
    var (attribute, value) := second.value;
    var all := infos;
    var i := FindInfo(infos, id.value);
    if i == |infos| {
      all := all + [Info(id.value, "", "", "")];
    }
    var info := all[i];
    if attribute == "cname" {
      info := info.(cname := value);
    } else if attribute == "msid" {
      var fields := Split(value, ' ');
      if |fields| < 1 || |fields| > 2 {
        return None;
      }
      info := info.(streamId := fields[0]);
      if |fields| == 2 {
        info := info.(trackId := fields[1]);
      }
    }
    return Some(all[i := info]);
  }

  method ParseSsrcGroupInfo(groups: seq<Group>, line: string) returns (r: Option<seq<Group>>)
    ensures r == GroupInfoAfter(groups, line)
  {
    if !Contains(line, "a=ssrc-group:") || |line| < 2 {
      return Some(groups);
    }
    var fields := Split(line[2..], ' ');
    if |fields| < 2 {
      return None;
    }
    var semantics := Attribute(fields[0]);
    if semantics == "" {
      return None;
    }
    var rest := fields[1..];
    var ssrcs := [];
    for i := 0 to |rest|
      invariant Ssrcs(rest[..i]) == Some(ssrcs)
    {
      assert rest[..i + 1][..i] == rest[..i];
      var id := FromString(rest[i]);
      if id.None? {
        BadFieldStays(rest, i + 1);
        return None;
      }
      ssrcs := ssrcs + [id.value];
    }
    assert rest[..|rest|] == rest;
    return Some(groups + [Group(semantics, ssrcs)]);
  }

  lemma {:induction false} BadFieldStays(fields: seq<string>, i: nat)
    requires i <= |fields| && Ssrcs(fields[..i]).None?
    ensures Ssrcs(fields).None?
  {
    if i < |fields| {
      var before := fields[..|fields| - 1];
      assert before[..i] == fields[..i];
      BadFieldStays(before, i);
    } else {
      assert fields[..i] == fields;
    }
  }

  method CreateTrackFromSsrcInfo(infos: seq<Info>) returns (tracks: seq<Track>)
    ensures tracks == TracksOf(infos)
  {
    tracks := [];
    for k := 0 to |infos|
      invariant tracks == TracksOf(infos[..k])
    {
      assert infos[..k + 1][..k] == infos[..k];
      var info := infos[k];
      var i := FindTrack(tracks, info.trackId);
      if i == |tracks| {
        tracks := tracks + [Track(info.trackId, [], [], "", "")];
        ReplaceLast(tracks[..i], tracks[i], Track(info.trackId, [info.ssrc], [], info.cname, info.streamId));
        assert tracks == tracks[..i] + [tracks[i]];
      }
      assert [] + [info.ssrc] == [info.ssrc];
      tracks := tracks[i := tracks[i].(streamId := info.streamId, cname := info.cname,
                                       ssrcs := tracks[i].ssrcs + [info.ssrc])];
    }
    assert infos[..|infos|] == infos;
  }

  method FindTrack(tracks: seq<Track>, id: string) returns (i: nat)
    ensures i == IndexOfTrack(tracks, id)
  {
    i := 0;
    while i < |tracks| && tracks[i].id != id
      invariant i <= |tracks| && IndexOfTrack(tracks, id) == i + IndexOfTrack(tracks[i..], id)
    {
      assert tracks[i..][1..] == tracks[i + 1..];
      i := i + 1;
    }
  }

  /** Every group goes to each track that has its first SSRC. */
  method AttachGroups(tracks: seq<Track>, groups: seq<Group>) returns (r: seq<Track>)
    ensures r == AllAttached(tracks, groups)
  {
    r := tracks;
    for k := 0 to |groups|
      invariant r == AllAttached(tracks, groups[..k])
    {
      assert groups[..k + 1][..k] == groups[..k];
      r := AttachGroup(r, groups[k]);
    }
    assert groups[..|groups|] == groups;
  }

  method AttachGroup(tracks: seq<Track>, g: Group) returns (r: seq<Track>)
    ensures r == Attached(tracks, g)
  {
    r := tracks;
    ghost var expected := Attached(tracks, g);
    forall i | 0 <= i < |tracks|
      ensures expected[i] ==
              if Takes(tracks[i], g) then tracks[i].(groups := tracks[i].groups + [g]) else tracks[i]
    {
      AttachedAt(tracks, g, i);
    }
    if g.ssrcs == [] {
      return;
    }
    for i := 0 to |tracks|
      invariant |r| == |tracks|
      invariant forall j :: 0 <= j < i ==> r[j] == expected[j]
      invariant forall j :: i <= j < |tracks| ==> r[j] == tracks[j]
    {
      if g.ssrcs[0] in r[i].ssrcs {
        r := r[i := r[i].(groups := r[i].groups + [g])];
      }
    }
  }

  method NextMedia(media: string, line: string) returns (r: Option<string>)
    ensures r == MediaAfter(media, line)
  {
    r := Some(media);
    if Contains(line, "m=group:BUNDLE") {
      return;
    } else if Contains(line, "m=") {
      var items := Split(line, ' ');
      if |items| <= 2 || |items[0]| < 2 {
        return None;
      }
      r := Some(items[0][2..]);
    }
  }

  /** `parse_transport_info`. */
  method ParseTransportInfo(td: Transport, line: string, valid: Fingerprints) returns (r: Option<Transport>)
    ensures r == TransportAfter(td, line, valid)
  {
    if Contains(line, "a=ice-ufrag") {
      var ufrag := Attribute(line);
      if ufrag == "" {
        return None;
      }
      return Some(td.(ufrag := ufrag));
    } else if Contains(line, "a=ice-pwd") {
      var pwd := Attribute(line);
      if pwd == "" {
        return None;
      }
      return Some(td.(pwd := pwd));
    } else if Contains(line, "a=fingerprint") {
      var items := Tokenize(line, ' ');
      if |items| != 2 || |items[0]| < 14 {
        return None;
      }
      var alg := Lower(items[0][14..]);
      if !valid(alg, items[1]) {
        return None;
      }
      return Some(td.(fingerprint := Some((alg, items[1]))));
    }
    return Some(td);
  }

  /** `set_remote_sdp`: the tracks and credentials of both media, or an error. */
  method SetRemoteSdp(sdp: string, valid: Fingerprints) returns (r: Option<Remote>)
    ensures r == RemoteDescription(sdp, valid)
  {
    hide LineAfter, LinesAfter, Stripped, TracksOf, AllAttached, Tokenize, Contains, Start;
    var fields := Tokenize(sdp, '\n');
    if fields == [] {
      return None;
    }
    NothingRead(Contains(sdp, "\r\n"));
    var crlf := Contains(sdp, "\r\n");
    var a := Start(valid);
    for i := 0 to |fields|
      invariant LinesAfter(Start(valid), Stripped(fields[..i], crlf)) == Some(a)
    {
      var line := if crlf && fields[i] != "" then fields[i][..|fields[i]| - 1] else fields[i];
      var next := ProcessLine(a, line);
      StrippedGrows(fields, i, crlf);
      OneMore(Start(valid), Stripped(fields[..i], crlf), line);
      if next.None? {
        BadLineStays(Start(valid), fields, i + 1, crlf);
        return None;
      }
      a := next.value;
    }
    assert fields[..|fields|] == fields;
    var audio := CreateTrackFromSsrcInfo(a.audio);
    var video := CreateTrackFromSsrcInfo(a.video);
    video := AttachGroups(video, a.groups);
    return Some(Remote(audio, video, a.audioTransport, a.videoTransport));
  }

  method ProcessLine(a: Answer, line: string) returns (r: Option<Answer>)
    ensures r == LineAfter(a, line)
  {
    var media := NextMedia(a.media, line);
    if media.None? {
      return None;
    }
    hide MediaAfter, TransportAfter, SsrcInfoAfter, GroupInfoAfter;
    var b := a.(media := media.value);
    if b.media == "audio" {
      var td := ParseTransportInfo(b.audioTransport, line, b.valid);
      if td.None? {
        return None;
      }
      var infos := ParseSsrcInfo(b.audio, line);
      if infos.None? {
        return None;
      }
      b := b.(audioTransport := td.value, audio := infos.value);
    } else if b.media == "video" {
      var td := ParseTransportInfo(b.videoTransport, line, b.valid);
      if td.None? {
        return None;
      }
      var groups := ParseSsrcGroupInfo(b.groups, line);
      if groups.None? {
        return None;
      }
      var infos := ParseSsrcInfo(b.video, line);
      if infos.None? {
        return None;
      }
      b := b.(videoTransport := td.value, groups := groups.value, video := infos.value);
    }
    return Some(b);
  }

  lemma NothingRead(crlf: bool)
    ensures forall a :: LinesAfter(a, Stripped([], crlf)) == Some(a)
  {
  }

  lemma StrippedGrows(fields: seq<string>, i: nat, crlf: bool)
    requires i < |fields|
    ensures Stripped(fields[..i + 1], crlf) ==
            Stripped(fields[..i], crlf) + [if crlf && fields[i] != "" then fields[i][..|fields[i]| - 1] else fields[i]]
  {
    assert fields[..i + 1][..i] == fields[..i];
  }

  lemma OneMore(a: Answer, lines: seq<string>, line: string)
    ensures LinesAfter(a, lines + [line]) ==
            match LinesAfter(a, lines)
            case None => None
            case Some(b) => LineAfter(b, line)
  {
    assert (lines + [line])[..|lines|] == lines;
  }

  /** After an error no later line helps. */
  lemma {:induction false} BadLineStays(a: Answer, fields: seq<string>, i: nat, crlf: bool)
    requires i <= |fields| && LinesAfter(a, Stripped(fields[..i], crlf)).None?
    ensures LinesAfter(a, Stripped(fields, crlf)).None?
    decreases |fields| - i
  {
    if i < |fields| {
      StrippedGrows(fields, i, crlf);
      OneMore(a, Stripped(fields[..i], crlf),
              if crlf && fields[i] != "" then fields[i][..|fields[i]| - 1] else fields[i]);
      BadLineStays(a, fields, i + 1, crlf);
    } else {
      assert fields[..i] == fields;
    }
  }
}
