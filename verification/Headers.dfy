/**
  The header-forwarding rule of the broker: every inbound header is copied
  onto the outbound client in order, except `Host`, `Content-Type` and
  `Content-Length`, and one `Accept: application/json` entry is appended
  afterwards. Names are compared ordinally (case-sensitively); a header's
  value is opaque text.
 */
module Headers {

  /** One header as enumerated from the inbound request: its name and its value text. */
  datatype Header = Header(name: string, value: string)

  /** The media-type entry added both when the client is created and after forwarding. */
  const AcceptJson: Header := Header("Accept", "application/json")

  /** The outbound client's default headers before any request is forwarded. */
  const ClientDefaults: seq<Header> := [AcceptJson]

  /** The three names that are never forwarded, compared ordinally. */
  predicate Dropped(h: Header) {
    h.name == "Host" || h.name == "Content-Type" || h.name == "Content-Length"
  }

  /** Every header of `hs` is forwardable. */
  ghost predicate NoneDropped(hs: seq<Header>) {
    forall k :: 0 <= k < |hs| ==> !Dropped(hs[k])
  }

  /** The headers of `hs` that pass the filter, in their original order. */
  function Kept(hs: seq<Header>): seq<Header>
    decreases |hs|
  {
    if |hs| == 0 then []
    else Kept(hs[..|hs| - 1]) + (if Dropped(hs[|hs| - 1]) then [] else [hs[|hs| - 1]])
  }

  /** The positions of `hs` whose header passes the filter, ascending. */
  function KeptPositions(hs: seq<Header>): (ps: seq<nat>)
    ensures forall k :: 0 <= k < |ps| ==> ps[k] < |hs| && !Dropped(hs[ps[k]])
    ensures forall k, l :: 0 <= k < l < |ps| ==> ps[k] < ps[l]
    ensures forall i :: 0 <= i < |hs| && !Dropped(hs[i]) ==> i in ps
    decreases |hs|
  {
    if |hs| == 0 then []
    else
      var init := KeptPositions(hs[..|hs| - 1]);
      init + (if Dropped(hs[|hs| - 1]) then [] else [|hs| - 1])
  }

  /**
    The `Add` calls made on the outbound default headers, in order, after forwarding
    `inbound` onto a client that held `defaults`. The client itself merges the
    values added under one name into a single entry.
   */
  function Forwarded(defaults: seq<Header>, inbound: seq<Header>): seq<Header>
  {
    defaults + Kept(inbound) + [AcceptJson]
  }

  /** Kept distributes over concatenation: filtering never reorders across a split. */
  lemma {:induction false} KeptAppend(a: seq<Header>, b: seq<Header>)
    ensures Kept(a + b) == Kept(a) + Kept(b)
    decreases |b|
  {
    if |b| == 0 {
      assert a + b == a;
    } else {
      var b' := b[..|b| - 1];
      var last := b[|b| - 1];
      assert (a + b)[..|a + b| - 1] == a + b';
      assert (a + b)[|a + b| - 1] == last;
      KeptAppend(a, b');
    }
  }

  /**
    The filter is exactly the ordered selection of the non-dropped positions:
    the k-th forwarded header is the header at the k-th kept position, so every
    kept inbound header appears once, unchanged, in its original relative order,
    and nothing else appears.
   */
  lemma {:induction false} KeptIsSelection(hs: seq<Header>)
    ensures |Kept(hs)| == |KeptPositions(hs)|
    ensures forall k :: 0 <= k < |Kept(hs)| ==> Kept(hs)[k] == hs[KeptPositions(hs)[k]]
    decreases |hs|
  {
    if |hs| > 0 {
      var init := hs[..|hs| - 1];
      KeptIsSelection(init);
      forall k | 0 <= k < |KeptPositions(init)|
        ensures init[KeptPositions(init)[k]] == hs[KeptPositions(init)[k]]
      {
      }
    }
  }

  /** A header occurs among the forwarded ones exactly as often as inbound, or never when dropped. */
  lemma {:induction false} KeptMultiplicity(hs: seq<Header>, h: Header)
    ensures multiset(Kept(hs))[h] == if Dropped(h) then 0 else multiset(hs)[h]
    decreases |hs|
  {
    if |hs| > 0 {
      var init := hs[..|hs| - 1];
      assert hs == init + [hs[|hs| - 1]];
      KeptMultiplicity(init, h);
    }
  }

  /** No forwarded header is named exactly `Host`, `Content-Type` or `Content-Length`. */
  lemma {:induction false} KeptNeverDropped(hs: seq<Header>)
    ensures NoneDropped(Kept(hs))
    decreases |hs|
  {
    if |hs| > 0 {
      KeptNeverDropped(hs[..|hs| - 1]);
    }
  }

  /** A header list with nothing to drop is forwarded unchanged. */
  lemma {:induction false} KeptIdentity(hs: seq<Header>)
    requires NoneDropped(hs)
    ensures Kept(hs) == hs
    decreases |hs|
  {
    if |hs| > 0 {
      var init := hs[..|hs| - 1];
      KeptIdentity(init);
      assert init + [hs[|hs| - 1]] == hs;
    }
  }

  /** Filtering twice is filtering once. */
  lemma KeptIdempotent(hs: seq<Header>)
    ensures Kept(Kept(hs)) == Kept(hs)
  {
    KeptNeverDropped(hs);
    KeptIdentity(Kept(hs));
  }

  /** Two kept inbound headers are forwarded in the order they arrived. */
  lemma KeptPreservesOrder(hs: seq<Header>, i: nat, j: nat)
    requires i < j < |hs|
    requires !Dropped(hs[i]) && !Dropped(hs[j])
    ensures exists k, l :: 0 <= k < l < |Kept(hs)| && Kept(hs)[k] == hs[i] && Kept(hs)[l] == hs[j]
  {
    var a, b, c := hs[..i], hs[i + 1..j], hs[j + 1..];
    assert hs == a + [hs[i]] + b + [hs[j]] + c;
    KeptAppend(a + [hs[i]] + b + [hs[j]], c);
    KeptAppend(a + [hs[i]] + b, [hs[j]]);
    KeptAppend(a + [hs[i]], b);
    KeptAppend(a, [hs[i]]);
    assert Kept([hs[i]]) == [hs[i]] by {
      assert [hs[i]][..0] == [];
    }
    assert Kept([hs[j]]) == [hs[j]] by {
      assert [hs[j]][..0] == [];
    }
    var k := |Kept(a)|;
    var l := k + 1 + |Kept(b)|;
    assert Kept(hs) == Kept(a) + [hs[i]] + Kept(b) + [hs[j]] + Kept(c);
    assert Kept(hs)[k] == hs[i];
    assert Kept(hs)[l] == hs[j];
  }

  /**
    Copies the forwardable inbound headers onto the client's default headers,
    then appends `Accept: application/json`.
   */
  method PopulateHeaders(defaults: seq<Header>, inbound: seq<Header>) returns (out: seq<Header>)
    ensures out == Forwarded(defaults, inbound)
    ensures |out| == |defaults| + |Kept(inbound)| + 1
    ensures out[..|defaults|] == defaults && out[|out| - 1] == AcceptJson
    ensures forall k :: |defaults| <= k < |out| ==> !Dropped(out[k])
  {
    out := defaults;
    var i := 0;
    while i < |inbound|
      invariant 0 <= i <= |inbound|
      invariant out == defaults + Kept(inbound[..i])
      invariant NoneDropped(out[|defaults|..])
    {
      var header := inbound[i];
      assert inbound[..i + 1][..i] == inbound[..i];
      i := i + 1;
      if header.name == "Host" {
        continue;
      }
      if header.name == "Content-Type" || header.name == "Content-Length" {
        continue;
      }
      out := out + [header];
    }
    assert inbound[..i] == inbound;
    out := out + [AcceptJson];
    KeptNeverDropped(inbound);
  }

  /** The client starts with one `Accept` entry and gets a second after forwarding; a caller's own `Accept` entries are added, not replaced. */
  lemma AcceptAppendedNotReplaced(inbound: seq<Header>)
    ensures multiset(Forwarded(ClientDefaults, inbound))[AcceptJson] == 2 + multiset(inbound)[AcceptJson]
    ensures forall v :: multiset(Forwarded(ClientDefaults, inbound))[Header("Accept", v)] >= multiset(inbound)[Header("Accept", v)]
  {
    KeptMultiplicity(inbound, AcceptJson);
    forall v
      ensures multiset(Forwarded(ClientDefaults, inbound))[Header("Accept", v)] >= multiset(inbound)[Header("Accept", v)]
    {
      KeptMultiplicity(inbound, Header("Accept", v));
    }
  }

  /** A freshly created client never sends `Host`, `Content-Type` or `Content-Length` from the forwarded set. */
  lemma ForwardedNeverDropped(inbound: seq<Header>)
    ensures NoneDropped(Forwarded(ClientDefaults, inbound))
    ensures Forwarded(ClientDefaults, inbound)[0] == AcceptJson
    ensures |Forwarded(ClientDefaults, inbound)| == |Kept(inbound)| + 2
  {
    KeptNeverDropped(inbound);
  }

  /** The comparison is ordinal: `host` in lower case, and the target `Url` header itself, are forwarded. */
  lemma {:induction false} OrdinalComparison(v: string, u: string)
    ensures Kept([Header("host", v), Header("Url", u)]) == [Header("host", v), Header("Url", u)]
  {
    KeptIdentity([Header("host", v), Header("Url", u)]);
  }
}
