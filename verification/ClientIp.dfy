/** The client address behind trusted proxies: header merging and the right-to-left chain walk.
    Address parsing and the set of trusted networks are arbitrary functions. */
module ClientIp {
  import opened Common

  type Ip = nat

  datatype Net = Net(parse: string -> Option<Ip>, trusted: Ip -> bool)

  // ----- Text -----

  /** The code points with the Unicode White_Space property, which `str::trim` removes. */
  predicate IsSpace(c: char) {
    var n := c as int;
    || 0x09 <= n <= 0x0D || n == 0x20 || n == 0x85 || n == 0xA0 || n == 0x1680
    || 0x2000 <= n <= 0x200A || n == 0x2028 || n == 0x2029 || n == 0x202F || n == 0x205F || n == 0x3000
  }

  function TrimLeft(s: string): string { if s != [] && IsSpace(s[0]) then TrimLeft(s[1..]) else s }

  function TrimRight(s: string): string { if s != [] && IsSpace(s[|s| - 1]) then TrimRight(s[..|s| - 1]) else s }

  function Trim(s: string): string { TrimRight(TrimLeft(s)) }

  function Split(s: string): (r: seq<string>)
    ensures r != []
  {
    if s == [] then [[]]
    else
      var r := Split(s[1..]);
      if s[0] == ',' then [[]] + r else Extend(s[0], r)
  }

  /** Puts a character before the first part. */
  function Extend(c: char, parts: seq<string>): (r: seq<string>)
    requires parts != []
    ensures r != []
  {
    [[c] + parts[0]] + parts[1..]
  }

  /** Trims every part and drops the empty ones. */
  function Clean(parts: seq<string>): seq<string> {
    if parts == [] then [] else CleanPart(parts[0]) + Clean(parts[1..])
  }

  function CleanPart(part: string): seq<string> { if Trim(part) == [] then [] else [Trim(part)] }

  function Segments(xff: string): seq<string> { Clean(Split(xff)) }

  // ----- Merging header lines -----

  function Join(parts: seq<string>): string
    requires parts != []
  {
    if |parts| == 1 then parts[0] else parts[0] + ", " + Join(parts[1..])
  }

  function MergeXff(lines: seq<string>): Option<string> {
    var kept := Clean(lines);
    if kept == [] then None else Some(Join(kept))
  }

  function AllSegments(lines: seq<string>): seq<string> {
    if lines == [] then [] else Segments(lines[0]) + AllSegments(lines[1..])
  }

  lemma ExtendConcat(c: char, x: seq<string>, y: seq<string>)
    requires x != []
    ensures Extend(c, x + y) == Extend(c, x) + y && [[]] + (x + y) == [[]] + x + y
  {
    assert (x + y)[1..] == x[1..] + y;
  }

  lemma {:induction false} SplitJoin(a: string, b: string)
    ensures Split(a + "," + b) == Split(a) + Split(b)
  {
    if a == [] {
      assert a + "," + b == "," + b;
      assert ("," + b)[1..] == b;
    } else {
      SplitJoin(a[1..], b);
      assert (a + "," + b)[1..] == a[1..] + "," + b && (a + "," + b)[0] == a[0];
      ExtendConcat(a[0], Split(a[1..]), Split(b));
    }
  }

  lemma {:induction false} CleanConcat(x: seq<string>, y: seq<string>)
    ensures Clean(x + y) == Clean(x) + Clean(y)
  {
    if x == [] {
      assert x + y == y;
    } else {
      var xy, head, rest := x + y, CleanPart(x[0]), Clean(x[1..]);
      assert xy[1..] == x[1..] + y && xy[0] == x[0];
      calc {
        Clean(xy);
        head + Clean(x[1..] + y);
        { CleanConcat(x[1..], y); }
        head + (rest + Clean(y));
        (head + rest) + Clean(y);
        Clean(x) + Clean(y);
      }
    }
  }

  lemma SegmentsConcat(a: string, b: string)
    ensures Segments(a + "," + b) == Segments(a) + Segments(b)
  {
    SplitJoin(a, b);
    CleanConcat(Split(a), Split(b));
  }

  lemma LeadingSpace(c: char, s: string)
    requires IsSpace(c)
    ensures Segments([c] + s) == Segments(s)
  {
    var r := Split(s);
    assert ([c] + s)[1..] == s;
    assert Split([c] + s) == Extend(c, r);
    assert ([c] + r[0])[1..] == r[0];
    assert Extend(c, r)[1..] == r[1..];
  }

  lemma {:induction false} TrimLeftSnoc(x: string, c: char)
    requires IsSpace(c)
    ensures TrimLeft(x + [c]) == if TrimLeft(x) == [] then [] else TrimLeft(x) + [c]
  {
    if x == [] {
      assert x + [c] == [c];
    } else {
      assert (x + [c])[1..] == x[1..] + [c];
      if IsSpace(x[0]) {
        TrimLeftSnoc(x[1..], c);
      }
    }
  }

  lemma TrimSnoc(x: string, c: char)
    requires IsSpace(c)
    ensures Trim(x + [c]) == Trim(x)
  {
    TrimLeftSnoc(x, c);
    var y := TrimLeft(x);
    assert (y + [c])[..|y|] == y;
  }

  /** Puts a character after the last part. */
  function AppendLast(parts: seq<string>, c: char): (r: seq<string>)
    requires parts != []
    ensures r != []
  {
    parts[..|parts| - 1] + [parts[|parts| - 1] + [c]]
  }

  lemma ExtendSnoc(first: char, parts: seq<string>, c: char)
    requires parts != []
    ensures Extend(first, AppendLast(parts, c)) == AppendLast(Extend(first, parts), c)
    ensures [[]] + AppendLast(parts, c) == AppendLast([[]] + parts, c)
  {
    if |parts| == 1 {
      assert [first] + (parts[0] + [c]) == ([first] + parts[0]) + [c];
    }
  }

  lemma {:induction false} SplitSnoc(s: string, c: char)
    requires c != ','
    ensures Split(s + [c]) == AppendLast(Split(s), c)
  {
    if s == [] {
      assert s + [c] == [c] && [c][1..] == "";
      assert Split("") == [""] && [c] + "" == [c];
    } else {
      SplitSnoc(s[1..], c);
      assert (s + [c])[1..] == s[1..] + [c];
      ExtendSnoc(s[0], Split(s[1..]), c);
    }
  }

  lemma TrailingSpace(s: string, c: char)
    requires IsSpace(c)
    ensures Segments(s + [c]) == Segments(s)
  {
    SplitSnoc(s, c);
    var r := Split(s);
    var init, last := r[..|r| - 1], r[|r| - 1];
    TrimSnoc(last, c);
    CleanConcat(init, [last + [c]]);
    CleanConcat(init, [last]);
    assert r == init + [last];
  }

  lemma {:induction false} SegmentsTrimLeft(s: string)
    ensures Segments(TrimLeft(s)) == Segments(s)
  {
    if s != [] && IsSpace(s[0]) {
      SegmentsTrimLeft(s[1..]);
      LeadingSpace(s[0], s[1..]);
      assert [s[0]] + s[1..] == s;
    }
  }

  lemma {:induction false} SegmentsTrimRight(s: string)
    ensures Segments(TrimRight(s)) == Segments(s)
  {
    if s != [] && IsSpace(s[|s| - 1]) {
      SegmentsTrimRight(s[..|s| - 1]);
      TrailingSpace(s[..|s| - 1], s[|s| - 1]);
      assert s[..|s| - 1] + [s[|s| - 1]] == s;
    }
  }

  /** White space around a header line never changes its segments. */
  lemma SegmentsTrim(s: string)
    ensures Segments(Trim(s)) == Segments(s)
  {
    SegmentsTrimLeft(s);
    SegmentsTrimRight(TrimLeft(s));
  }

  lemma {:induction false} JoinSegments(parts: seq<string>)
    requires parts != []
    ensures Segments(Join(parts)) == AllSegments(parts)
  {
    if |parts| == 1 {
      assert AllSegments(parts[1..]) == [];
    } else {
      JoinSegments(parts[1..]);
      var rest := Join(parts[1..]);
      assert parts[0] + ", " + rest == parts[0] + "," + ([' '] + rest);
      SegmentsConcat(parts[0], [' '] + rest);
      LeadingSpace(' ', rest);
    }
  }

  lemma {:induction false} CleanedLines(lines: seq<string>)
    ensures AllSegments(Clean(lines)) == AllSegments(lines)
  {
    if lines != [] {
      CleanedLines(lines[1..]);
      SegmentsTrim(lines[0]);
      if Trim(lines[0]) == [] {
        EmptySegments();
        assert CleanPart(lines[0]) + Clean(lines[1..]) == Clean(lines[1..]);
      } else {
        assert (CleanPart(lines[0]) + Clean(lines[1..]))[1..] == Clean(lines[1..]);
      }
    }
  }

  lemma EmptySegments()
    ensures Segments("") == []
  {
    assert Split("") == [""] && [""][1..] == [];
    assert Trim("") == "";
  }

  /** Merging repeated header lines gives exactly the segments of the lines in order. */
  lemma MergeConcatenates(lines: seq<string>)
    ensures match MergeXff(lines)
            case None => AllSegments(lines) == []
            case Some(xff) => Segments(xff) == AllSegments(lines)
  {
    CleanedLines(lines);
    if Clean(lines) != [] {
      JoinSegments(Clean(lines));
    }
  }

  // ----- What the segments are -----

  predicate AllSpace(s: string) { forall i | 0 <= i < |s| :: IsSpace(s[i]) }

  /** Text that trimming leaves alone. */
  predicate Trimmed(t: string) { t != [] && !IsSpace(t[0]) && !IsSpace(t[|t| - 1]) }

  lemma {:induction false} TrimLeftDrops(a: string, t: string)
    requires AllSpace(a) && (t == [] || !IsSpace(t[0]))
    ensures TrimLeft(a + t) == t
  {
    if a == [] {
      assert a + t == t;
    } else {
      assert (a + t)[1..] == a[1..] + t;
      TrimLeftDrops(a[1..], t);
    }
  }

  lemma {:induction false} TrimRightDrops(t: string, b: string)
    requires AllSpace(b) && (t == [] || !IsSpace(t[|t| - 1]))
    ensures TrimRight(t + b) == t
  {
    if b == [] {
      assert t + b == t;
    } else {
      assert (t + b)[..|t + b| - 1] == t + b[..|b| - 1];
      TrimRightDrops(t, b[..|b| - 1]);
    }
  }

  /** Trimming takes off exactly the outer white space. */
  lemma TrimDrops(a: string, t: string, b: string)
    requires AllSpace(a) && AllSpace(b) && (t == [] || Trimmed(t))
    ensures Trim(a + t + b) == t
  {
    if t == [] {
      assert a + t + b == (a + b) + [];
      TrimLeftDrops(a + b, []);
    } else {
      assert a + t + b == a + (t + b);
      TrimLeftDrops(a, t + b);
      TrimRightDrops(t, b);
    }
  }

  lemma {:induction false} SplitPlain(s: string)
    requires ',' !in s
    ensures Split(s) == [s]
  {
    if s != [] {
      SplitPlain(s[1..]);
      assert [s[0]] + s[1..] == s;
    }
  }

  /** A part without a comma is one segment, stripped of the white space around it, or none when it is blank. */
  lemma PartSegments(a: string, t: string, b: string)
    requires AllSpace(a) && AllSpace(b) && (t == [] || (Trimmed(t) && ',' !in t))
    ensures Segments(a + t + b) == if t == [] then [] else [t]
  {
    var x := a + t + b;
    SplitPlain(x);
    TrimDrops(a, t, b);
    assert [x][1..] == [];
    assert Clean([x]) == CleanPart(x) + [];
  }

  /** Joining and splitting are inverse on lists of trimmed, comma-free texts. */
  lemma {:induction false} SegmentsRoundTrip(texts: seq<string>)
    requires texts != [] && forall k | 0 <= k < |texts| :: Trimmed(texts[k]) && ',' !in texts[k]
    ensures Segments(Join(texts)) == texts
  {
    JoinSegments(texts);
    EachIsItself(texts);
  }

  lemma {:induction false} EachIsItself(texts: seq<string>)
    requires forall k | 0 <= k < |texts| :: Trimmed(texts[k]) && ',' !in texts[k]
    ensures AllSegments(texts) == texts
  {
    if texts != [] {
      EachIsItself(texts[1..]);
      PartSegments([], texts[0], []);
      assert [] + texts[0] + [] == texts[0];
    }
  }

  // ----- The walk -----

  /** A segment at which the walk stops: not an address, or an address not trusted. */
  predicate Stops(net: Net, seg: string) { net.parse(seg).None? || !net.trusted(net.parse(seg).value) }

  function LastStop(net: Net, segs: seq<string>): (r: Option<nat>)
    ensures r.None? ==> forall j | 0 <= j < |segs| :: !Stops(net, segs[j])
    ensures r.Some? ==> r.value < |segs| && Stops(net, segs[r.value])
    ensures r.Some? ==> forall j | r.value < j < |segs| :: !Stops(net, segs[j])
  {
    if segs == [] then None
    else if Stops(net, segs[|segs| - 1]) then Some(|segs| - 1)
    else LastStop(net, segs[..|segs| - 1])
  }

  /** The rightmost hop that is not a trusted proxy: its address, or nothing when it is no address. When every hop
      is trusted, the leftmost. */
  function ClientOf(net: Net, segs: seq<string>): Option<Ip> {
    var k := LastStop(net, segs);
    if k.Some? then net.parse(segs[k.value]) else if segs == [] then None else net.parse(segs[0])
  }

  /** The walk spelled out: with everything to the right of segment `k` a trusted address, a segment that is no address
      ends it with nothing, an address that is not trusted is the client, and so is a trusted one with nothing before
      it. */
  lemma ClientMeans(net: Net, segs: seq<string>, k: nat)
    requires k < |segs|
    requires forall j | k < j < |segs| :: net.parse(segs[j]).Some? && net.trusted(net.parse(segs[j]).value)
    ensures net.parse(segs[k]).None? ==> ClientOf(net, segs).None?
    ensures net.parse(segs[k]).Some? && (!net.trusted(net.parse(segs[k]).value) || k == 0) ==>
              ClientOf(net, segs) == net.parse(segs[k])
    ensures ClientOf(net, []).None?
  {
    var s := LastStop(net, segs);
    assert Stops(net, segs[k]) ==> s == Some(k);
  }

  method WalkXff(net: Net, xff: string) returns (r: Option<Ip>)
    ensures r == ClientOf(net, Segments(xff))
  {
    r := WalkSegments(net, Segments(xff));
  }

  method WalkSegments(net: Net, segs: seq<string>) returns (r: Option<Ip>)
    ensures r == ClientOf(net, segs)
  {
    var client: Option<Ip>, hitInvalid := None, false;
    var i := |segs|;
    while i > 0 && client.None? && !hitInvalid
      invariant 0 <= i <= |segs|
      invariant client.None? && !hitInvalid ==> forall j | i <= j < |segs| :: !Stops(net, segs[j])
      invariant client.Some? || hitInvalid ==> i < |segs| && Stops(net, segs[i])
      invariant forall j | i < j < |segs| :: !Stops(net, segs[j])
      invariant client.Some? ==> client == net.parse(segs[i])
      invariant hitInvalid ==> client.None? && net.parse(segs[i]).None?
      decreases i
    {
      i := i - 1;
      var ip := net.parse(segs[i]);
      if ip.None? {
        hitInvalid := true;
      } else if !net.trusted(ip.value) {
        client := ip;
      }
    }
    if client.Some? {
      return client;
    }
    if hitInvalid {
      return None;
    }
    r := if segs == [] then None else net.parse(segs[0]);
  }

  ghost predicate HasStop(net: Net, segs: seq<string>) { exists j | 0 <= j < |segs| :: Stops(net, segs[j]) }

  lemma PrefixIrrelevant(net: Net, prefix: seq<string>, segs: seq<string>)
    requires HasStop(net, segs)
    ensures ClientOf(net, prefix + segs) == ClientOf(net, segs)
  {
    var all := prefix + segs;
    var j := LastStop(net, segs).value;
    var k := LastStop(net, all);
    assert all[|prefix| + j] == segs[j];
    assert forall i | |prefix| <= i < |all| :: all[i] == segs[i - |prefix|];
    assert k == Some(|prefix| + j);
  }

  /** Behind trusted hops alone the walk goes on into whatever stands before them. */
  lemma PrefixBelieved(net: Net, prefix: seq<string>, segs: seq<string>)
    requires !HasStop(net, segs) && prefix != []
    ensures ClientOf(net, prefix + segs) == ClientOf(net, prefix)
  {
    var all := prefix + segs;
    var j, k := LastStop(net, prefix), LastStop(net, all);
    assert forall i | 0 <= i < |prefix| :: all[i] == prefix[i];
    assert forall i | |prefix| <= i < |all| :: all[i] == segs[i - |prefix|] && !Stops(net, all[i]);
    if j.Some? {
      assert Stops(net, all[j.value]);
    }
    assert k == j;
  }

  // ----- Resolution -----

  function ResolveFromHeaders(net: Net, xff: Option<string>, realIp: Option<string>): Option<Ip> {
    var walked := if xff.Some? && Trim(xff.value) != [] then ClientOf(net, Segments(Trim(xff.value))) else None;
    if walked.Some? then walked
    else if realIp.Some? && Trim(realIp.value) != [] then net.parse(Trim(realIp.value))
    else None
  }

  function ExtractClientIp(net: Net, xff: Option<string>, realIp: Option<string>, peer: Option<Ip>): Option<Ip> {
    if peer.Some? && !net.trusted(peer.value) then peer
    else
      var r := ResolveFromHeaders(net, xff, realIp);
      if r.None? then peer else r
  }

  /** A peer that is no trusted proxy is the client, whatever headers it sends; a connection with a peer always
      resolves. */
  lemma UntrustedPeerIgnoresHeaders(net: Net, xff: Option<string>, realIp: Option<string>, peer: Ip)
    ensures !net.trusted(peer) ==> ExtractClientIp(net, xff, realIp, Some(peer)) == Some(peer)
    ensures ExtractClientIp(net, xff, realIp, Some(peer)).Some?
  {
  }

  /** Behind a trusted peer, or with none, the forwarded chain comes first, then the real-ip header with white space
      around it stripped, then the peer. */
  lemma ResolutionOrder(net: Net, lines: seq<string>, a: string, t: string, b: string, peer: Option<Ip>)
    requires peer.Some? ==> net.trusted(peer.value)
    requires AllSpace(a) && AllSpace(b) && Trimmed(t)
    ensures var walked := ClientOf(net, AllSegments(lines));
            && ExtractClientIp(net, MergeXff(lines), Some(a + t + b), peer) ==
                 (if walked.Some? then walked else if net.parse(t).Some? then net.parse(t) else peer)
            && ExtractClientIp(net, MergeXff(lines), None, peer) == (if walked.Some? then walked else peer)
            && ExtractClientIp(net, MergeXff(lines), Some(a), peer) == (if walked.Some? then walked else peer)
  {
    TrimDrops(a, t, b);
    TrimDrops(a, [], []);
    assert a + [] + [] == a;
    ResolveBySegments(net, lines, Some(a + t + b));
    ResolveBySegments(net, lines, None);
    ResolveBySegments(net, lines, Some(a));
  }

  lemma {:induction false} AllSegmentsConcat(a: seq<string>, b: seq<string>)
    ensures AllSegments(a + b) == AllSegments(a) + AllSegments(b)
  {
    if a == [] {
      assert a + b == b;
    } else {
      var ab := a + b;
      assert ab[1..] == a[1..] + b && ab[0] == a[0];
      calc {
        AllSegments(ab);
        Segments(a[0]) + AllSegments(a[1..] + b);
        { AllSegmentsConcat(a[1..], b); }
        Segments(a[0]) + (AllSegments(a[1..]) + AllSegments(b));
        Segments(a[0]) + AllSegments(a[1..]) + AllSegments(b);
        AllSegments(a) + AllSegments(b);
      }
    }
  }

  /** What the first header of a resolution comes to depends on the segments alone. */
  lemma ResolveBySegments(net: Net, lines: seq<string>, realIp: Option<string>)
    ensures var segs := AllSegments(lines);
            var walked := ClientOf(net, segs);
            ResolveFromHeaders(net, MergeXff(lines), realIp) ==
              if walked.Some? then walked else ResolveFromHeaders(net, None, realIp)
  {
    MergeConcatenates(lines);
    var m := MergeXff(lines);
    if m.Some? {
      SegmentsTrim(m.value);
      EmptySegments();
    }
  }

  /** Once the header lines added by the proxies hold a hop that is not trusted, or not an address, no line a
      client put before them changes the result. */
  lemma ForgedLinesIrrelevant(net: Net, forged: seq<string>, lines: seq<string>, realIp: Option<string>,
                              peer: Option<Ip>)
    requires HasStop(net, AllSegments(lines))
    ensures ExtractClientIp(net, MergeXff(forged + lines), realIp, peer) ==
              ExtractClientIp(net, MergeXff(lines), realIp, peer)
  {
    ResolveBySegments(net, forged + lines, realIp);
    ResolveBySegments(net, lines, realIp);
    AllSegmentsConcat(forged, lines);
    PrefixIrrelevant(net, AllSegments(forged), AllSegments(lines));
  }

  /** The condition matters: when every hop the proxies added is trusted, what the lines before them say is believed. */
  lemma ForgedLinesBelieved(net: Net, forged: seq<string>, lines: seq<string>, realIp: Option<string>, peer: Option<Ip>)
    requires !HasStop(net, AllSegments(lines)) && AllSegments(forged) != []
    ensures ExtractClientIp(net, MergeXff(forged + lines), realIp, peer) ==
              ExtractClientIp(net, MergeXff(forged), realIp, peer)
  {
    ResolveBySegments(net, forged + lines, realIp);
    ResolveBySegments(net, forged, realIp);
    AllSegmentsConcat(forged, lines);
    PrefixBelieved(net, AllSegments(forged), AllSegments(lines));
  }

  /** The same for text put before the value inside one line. */
  lemma ForgedPrefixIrrelevant(net: Net, forged: string, xff: string)
    requires HasStop(net, Segments(xff))
    ensures ClientOf(net, Segments(forged + "," + xff)) == ClientOf(net, Segments(xff))
  {
    SegmentsConcat(forged, xff);
    PrefixIrrelevant(net, Segments(forged), Segments(xff));
  }
}
