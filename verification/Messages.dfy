/** What two lossy FIFO channels can carry while one plan is carried out, and how it changes. */
module Messages {
  import opened Bytes
  import opened Frames
  import opened Device
  import opened HostProtocol

  /** What stays of a queue that jumps from position `a` to position `b`. */
  function Cut<T>(q: seq<T>, a: nat, b: nat): seq<T>
    requires a <= |q| && b <= |q|
  {
    q[..a] + q[b..]
  }

  function Remove<T>(q: seq<T>, at: nat): seq<T> {
    if at < |q| then Cut(q, at, at + 1) else q
  }

  function Double<T>(q: seq<T>, at: nat): seq<T> {
    if at < |q| then Cut(q, at + 1, at) else q
  }

  /** What a message in a channel is, relative to the plan. */
  datatype Kind =
    | Never | RequestNo(index: nat) | RequestUpTo(index: nat) | ReplyNo(index: nat) | AcceptanceOf(index: nat)

  ghost predicate Is(p: Plan, k: Kind, m: seq<byte>)
    requires p.Valid()
  {
    match k
    case Never => false
    case RequestNo(i) => i <= p.Last() && m == Encode(Request(p, i))
    case RequestUpTo(h) => exists i | 0 <= i <= h && i <= p.Last() :: m == Encode(Request(p, i))
    case ReplyNo(i) => Decode(m).Ok? && Decode(m).value.sequence == i % U16_MODULUS
    case AcceptanceOf(i) => i <= p.Last() && Judge(p, i, m) == Accepted
  }

  ghost predicate All(p: Plan, k: Kind, q: seq<seq<byte>>)
    requires p.Valid()
  {
    forall i :: 0 <= i < |q| ==> Is(p, k, q[i])
  }

  ghost predicate Any(p: Plan, k: Kind, q: seq<seq<byte>>)
    requires p.Valid()
  {
    exists i :: 0 <= i < |q| && Is(p, k, q[i])
  }

  /** Stale messages first, current ones after them. */
  ghost predicate Line(p: Plan, past: Kind, now: Kind, q: seq<seq<byte>>)
    requires p.Valid()
  {
    && (forall i :: 0 <= i < |q| ==> Is(p, past, q[i]) || Is(p, now, q[i]))
    && (forall i, j :: 0 <= i < j < |q| && Is(p, now, q[i]) ==> Is(p, now, q[j]))
  }

  function StaleRequest(h: nat): Kind {
    if h == 0 then Never else RequestNo(h - 1)
  }

  function StaleReply(h: nat): Kind {
    if h == 0 then Never else ReplyNo(h - 1)
  }

  ghost predicate Channels(p: Plan, toDevice: seq<seq<byte>>, toHost: seq<seq<byte>>, h: nat)
    requires p.Valid()
  {
    && Line(p, StaleRequest(h), RequestNo(h), toDevice)
    && Line(p, StaleReply(h), ReplyNo(h), toHost)
    && (Any(p, ReplyNo(h), toHost) ==> All(p, RequestNo(h), toDevice))
  }

  lemma CutKeeps(p: Plan, past: Kind, now: Kind, q: seq<seq<byte>>, a: nat, b: nat)
    requires p.Valid() && a <= |q| && b <= |q| && a <= b + 1
    ensures Line(p, past, now, q) ==> Line(p, past, now, Cut(q, a, b))
  {
    hide Is;
    var r := Cut(q, a, b);
    if Line(p, past, now, q) {
      forall i | 0 <= i < |r| ensures Is(p, past, r[i]) || Is(p, now, r[i]) {
        CutAt(q, a, b, i);
      }
      forall i, j | 0 <= i < j < |r| && Is(p, now, r[i]) ensures Is(p, now, r[j]) {
        CutAt(q, a, b, i);
        CutAt(q, a, b, j);
        assert From(a, b, i) == From(a, b, j) || From(a, b, i) < From(a, b, j);
      }
    }
  }

  function From(a: nat, b: nat, i: nat): nat {
    if i < a then i else i - a + b
  }

  lemma CutAt<T>(q: seq<T>, a: nat, b: nat, i: nat)
    requires a <= |q| && b <= |q| && i < |Cut(q, a, b)|
    ensures From(a, b, i) < |q| && Cut(q, a, b)[i] == q[From(a, b, i)]
  {
  }

  lemma CutWithin(p: Plan, k: Kind, q: seq<seq<byte>>, a: nat, b: nat)
    requires p.Valid() && a <= |q| && b <= |q|
    ensures All(p, k, q) ==> All(p, k, Cut(q, a, b))
    ensures Any(p, k, Cut(q, a, b)) ==> Any(p, k, q)
  {
    hide Is;
    var r := Cut(q, a, b);
    forall i | 0 <= i < |r| ensures From(a, b, i) < |q| && r[i] == q[From(a, b, i)] {
      CutAt(q, a, b, i);
    }
  }

  lemma AppendFresh(p: Plan, past: Kind, now: Kind, q: seq<seq<byte>>, m: seq<byte>)
    requires p.Valid() && Line(p, past, now, q) && Is(p, now, m)
    ensures Line(p, past, now, q + [m])
    ensures All(p, now, q) ==> All(p, now, q + [m])
  {
    hide Is;
  }

  lemma AppendStale(p: Plan, past: Kind, now: Kind, q: seq<seq<byte>>, m: seq<byte>)
    requires p.Valid() && Line(p, past, now, q) && Is(p, past, m) && !Any(p, now, q)
    ensures Line(p, past, now, q + [m])
  {
    hide Is;
  }

  lemma AppendAny(p: Plan, k: Kind, q: seq<seq<byte>>, m: seq<byte>)
    requires p.Valid()
    ensures Any(p, k, q + [m]) <==> Any(p, k, q) || Is(p, k, m)
  {
    hide Is;
    assert (q + [m])[|q|] == m;
    assert forall i :: 0 <= i < |q| ==> (q + [m])[i] == q[i];
  }

  lemma HeadFresh(p: Plan, past: Kind, now: Kind, q: seq<seq<byte>>)
    requires p.Valid() && q != [] && Line(p, past, now, q) && Is(p, now, q[0])
    ensures All(p, now, q)
  {
    hide Is;
  }

  /** When the next request becomes current, everything still under way becomes past. */
  lemma Outdated(p: Plan, past: Kind, now: Kind, q: seq<seq<byte>>)
    requires p.Valid() && All(p, past, q) && forall m :: Is(p, past, m) ==> !Is(p, now, m)
    ensures Line(p, past, now, q) && !Any(p, now, q)
  {
    hide Is;
  }

  lemma AcceptanceIsReply(p: Plan, h: nat, m: seq<byte>)
    requires p.Valid() && Is(p, AcceptanceOf(h), m)
    ensures Is(p, ReplyNo(h), m)
  {
  }

  lemma AcceptancesAreReplies(p: Plan, h: nat, q: seq<seq<byte>>)
    requires p.Valid() && Any(p, AcceptanceOf(h), q)
    ensures Any(p, ReplyNo(h), q)
  {
    hide Is;
    var i :| 0 <= i < |q| && Is(p, AcceptanceOf(h), q[i]);
    AcceptanceIsReply(p, h, q[i]);
  }

  lemma NextReplyDiffers(p: Plan, h: nat)
    requires p.Valid()
    ensures forall m :: Is(p, ReplyNo(h), m) ==> !Is(p, ReplyNo(h + 1), m)
  {
    hide Decode;
    NextIndex(h);
  }

  lemma NextRequestDiffers(p: Plan, h: nat)
    requires p.Valid() && h < p.Last()
    ensures forall m :: Is(p, RequestNo(h), m) ==> !Is(p, RequestNo(h + 1), m)
  {
    RequestsDiffer(p, h);
  }

  lemma HeadIsSome(p: Plan, k: Kind, q: seq<seq<byte>>)
    requires p.Valid() && q != [] && Is(p, k, q[0])
    ensures Any(p, k, q)
  {
    hide Is;
  }

  lemma TailWithin(p: Plan, k: Kind, q: seq<seq<byte>>, rest: seq<seq<byte>>)
    requires p.Valid() && q != [] && rest == q[1..] && All(p, k, q)
    ensures All(p, k, rest)
  {
    hide Is;
  }

  lemma NoAcceptanceYet(p: Plan, h: nat, q: seq<seq<byte>>)
    requires p.Valid() && !Any(p, ReplyNo(h), q)
    ensures !Any(p, AcceptanceOf(h), q)
  {
    hide Is, Any;
    if Any(p, AcceptanceOf(h), q) {
      AcceptancesAreReplies(p, h, q);
    }
  }

  lemma RequestDecodes(p: Plan, i: nat, m: seq<byte>)
    requires p.Valid() && Is(p, RequestNo(i), m)
    ensures i <= p.Last() && Decode(m) == Ok(Request(p, i))
  {
    hide Decode, Encode, Request;
    CodecInverse(m, Request(p, i));
  }

  lemma OnlyHelloOpens(p: Plan, i: nat)
    requires p.Valid() && i <= p.Last()
    ensures OpensSession(Request(p, i)) <==> i == 0
  {
  }

  lemma StaleAnswered(p: Plan, toDevice: seq<seq<byte>>, toHost: seq<seq<byte>>, h: nat, sent: seq<byte>)
    requires p.Valid() && 0 < h <= p.Last() && Channels(p, toDevice, toHost, h) && toDevice != []
    requires Is(p, RequestNo(h - 1), toDevice[0]) && Is(p, ReplyNo(h - 1), sent)
    ensures !Any(p, AcceptanceOf(h), toHost) && !All(p, RequestNo(h), toDevice)
    ensures Channels(p, toDevice[1..], toHost + [sent], h) && !Any(p, AcceptanceOf(h), toHost + [sent])
  {
    hide Is, Any, Line;
    NextRequestDiffers(p, h - 1);
    NextReplyDiffers(p, h - 1);
    assert !Any(p, ReplyNo(h), toHost);
    NoAcceptanceYet(p, h, toHost);
    AppendStale(p, StaleReply(h), ReplyNo(h), toHost, sent);
    AppendAny(p, ReplyNo(h), toHost, sent);
    NoAcceptanceYet(p, h, toHost + [sent]);
    CutKeeps(p, StaleRequest(h), RequestNo(h), toDevice, 0, 1);
    assert Cut(toDevice, 0, 1) == toDevice[1..];
  }

  lemma CurrentAnswered(p: Plan, toDevice: seq<seq<byte>>, toHost: seq<seq<byte>>, h: nat, sent: seq<byte>)
    requires p.Valid() && h <= p.Last() && Channels(p, toDevice, toHost, h) && toDevice != []
    requires Is(p, RequestNo(h), toDevice[0]) && Is(p, ReplyNo(h), sent)
    ensures Channels(p, toDevice[1..], toHost + [sent], h) && All(p, RequestNo(h), toDevice[1..])
    ensures Any(p, AcceptanceOf(h), toHost + [sent]) ==> Any(p, AcceptanceOf(h), toHost) || Is(p, AcceptanceOf(h), sent)
  {
    hide Is, Any, Line, All;
    HeadFresh(p, StaleRequest(h), RequestNo(h), toDevice);
    AppendFresh(p, StaleReply(h), ReplyNo(h), toHost, sent);
    AppendAny(p, AcceptanceOf(h), toHost, sent);
    CutKeeps(p, StaleRequest(h), RequestNo(h), toDevice, 0, 1);
    TailWithin(p, RequestNo(h), toDevice, toDevice[1..]);
    assert Cut(toDevice, 0, 1) == toDevice[1..];
  }

  lemma CutIsTail<T>(q: seq<T>)
    requires q != []
    ensures Cut(q, 0, 1) == q[1..]
  {
  }

  lemma CutNothing<T>(q: seq<T>)
    ensures Cut(q, 0, 0) == q
  {
  }
}
