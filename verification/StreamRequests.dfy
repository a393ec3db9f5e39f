/** What one open file asks of the store for its multipart uploads, in order. */
module StreamRequests {
  import opened PlanTypes

  /** An upload begins, a part is sent or copied under it, or it ends: completed from a list of parts, or
      given up with none. */
  datatype Request = BeginUpload | SendPart(part: FilePart) | EndUpload(parts: seq<FilePart>)

  /** An upload has begun and not ended. */
  ghost predicate Open(requests: seq<Request>) {
    exists b :: 0 <= b < |requests| && requests[b] == BeginUpload && forall m :: b < m < |requests| ==> requests[m].SendPart?
  }

  /** The part was sent under the upload that is open. */
  ghost predicate SentNow(requests: seq<Request>, p: FilePart) {
    exists k :: 0 <= k < |requests| && requests[k] == SendPart(p) && forall m :: k < m < |requests| ==> requests[m].SendPart?
  }

  /** Request k has its place: an upload begins when none is open; parts are sent only under an open one;
      and only an open one ends, completed from parts that were sent under it. */
  ghost predicate InPlace(requests: seq<Request>, k: nat)
    requires k < |requests|
  {
    match requests[k]
    case BeginUpload => !Open(requests[..k])
    case SendPart(_) => Open(requests[..k])
    case EndUpload(parts) => Open(requests[..k]) && forall p :: p in parts ==> SentNow(requests[..k], p)
  }

  /** Every request had its place, an upload is open exactly if the file knows one, and the listed parts
      were sent under it. */
  ghost predicate Orderly(requests: seq<Request>, uploading: bool, list: seq<FilePart>) {
    && (forall k: nat :: k < |requests| ==> InPlace(requests, k))
    && (uploading <==> Open(requests))
    && forall p :: p in list ==> SentNow(requests, p)
  }

  lemma NextInPlace(requests: seq<Request>, r: Request)
    requires forall k: nat :: k < |requests| ==> InPlace(requests, k)
    requires match r
      case BeginUpload => !Open(requests)
      case SendPart(_) => Open(requests)
      case EndUpload(parts) => Open(requests) && forall p :: p in parts ==> SentNow(requests, p)
    ensures forall k: nat :: k < |requests| + 1 ==> InPlace(requests + [r], k)
  {
    hide Open, SentNow;
    var after := requests + [r];
    forall k: nat | k < |after| ensures InPlace(after, k) {
      assert after[..|requests|] == requests;
      if k < |requests| {
        assert after[..k] == requests[..k];
        assert InPlace(requests, k);
      }
    }
  }

  lemma BeginOrderly(requests: seq<Request>)
    requires Orderly(requests, false, [])
    ensures Orderly(requests + [BeginUpload], true, [])
  {
    hide InPlace;
    NextInPlace(requests, BeginUpload);
    assert (requests + [BeginUpload])[|requests|] == BeginUpload;
  }

  lemma SendOrderly(requests: seq<Request>, list: seq<FilePart>, p: FilePart)
    requires Orderly(requests, true, list)
    ensures Orderly(requests + [SendPart(p)], true, list + [p])
  {
    hide InPlace;
    NextInPlace(requests, SendPart(p));
    var after := requests + [SendPart(p)];
    assert after[|requests|] == SendPart(p);
    var b :| 0 <= b < |requests| && requests[b] == BeginUpload && forall m :: b < m < |requests| ==> requests[m].SendPart?;
    assert after[b] == BeginUpload;
    forall q | q in list + [p] ensures SentNow(after, q) {
      if q in list {
        var k :| 0 <= k < |requests| && requests[k] == SendPart(q) && forall m :: k < m < |requests| ==> requests[m].SendPart?;
        assert after[k] == SendPart(q);
      }
    }
  }

  function Sends(parts: seq<FilePart>): seq<Request> {
    seq(|parts|, k requires 0 <= k < |parts| => SendPart(parts[k]))
  }

  lemma {:induction false} SendsOrderly(requests: seq<Request>, list: seq<FilePart>, sent: seq<FilePart>)
    requires Orderly(requests, true, list)
    ensures Orderly(requests + Sends(sent), true, list + sent)
    decreases |sent|
  {
    hide Orderly;
    if sent == [] {
      assert requests + Sends(sent) == requests && list + sent == list;
    } else {
      var n := |sent| - 1;
      SendsOrderly(requests, list, sent[..n]);
      SendOrderly(requests + Sends(sent[..n]), list + sent[..n], sent[n]);
      assert requests + Sends(sent) == requests + Sends(sent[..n]) + [SendPart(sent[n])];
      assert list + sent == list + sent[..n] + [sent[n]];
    }
  }

  lemma FewerOrderly(requests: seq<Request>, uploading: bool, list: seq<FilePart>, fewer: seq<FilePart>)
    requires Orderly(requests, uploading, list) && forall p :: p in fewer ==> p in list
    ensures Orderly(requests, uploading, fewer)
  {
    hide InPlace, Open, SentNow;
  }

  /** Without an open upload no part is listed. */
  lemma NoneOpen(requests: seq<Request>, list: seq<FilePart>)
    requires Orderly(requests, false, list)
    ensures list == []
  {
    if list != [] {
      var p := list[0];
      assert p in list && SentNow(requests, p);
      var k :| 0 <= k < |requests| && requests[k] == SendPart(p) && forall m :: k < m < |requests| ==> requests[m].SendPart?;
      OpenStays(requests, k);
      assert false;
    }
  }

  /** After a part only parts were sent, so the upload it was sent under is open. */
  lemma OpenStays(requests: seq<Request>, k: nat)
    requires k < |requests| && requests[k].SendPart? && InPlace(requests, k) && forall m :: k < m < |requests| ==> requests[m].SendPart?
    ensures Open(requests)
  {
    var before := requests[..k];
    var b :| 0 <= b < |before| && before[b] == BeginUpload && forall m :: b < m < |before| ==> before[m].SendPart?;
    forall m | b < m < |requests| ensures requests[m].SendPart? {
      if m < k { assert before[m] == requests[m]; }
    }
  }

  lemma EndOrderly(requests: seq<Request>, list: seq<FilePart>, parts: seq<FilePart>)
    requires Orderly(requests, true, list) && forall p :: p in parts ==> p in list
    ensures Orderly(requests + [EndUpload(parts)], false, [])
  {
    hide InPlace;
    assert forall p :: p in parts ==> SentNow(requests, p);
    NextInPlace(requests, EndUpload(parts));
    var after := requests + [EndUpload(parts)];
    assert after[|requests|] == EndUpload(parts);
  }
}
