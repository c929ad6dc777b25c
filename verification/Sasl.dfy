/** Negotiation of a security layer between a SASL GSSAPI client and server (gssapi.c). */
module Sasl {
  import opened Common

  // ----- what each side is configured to accept -----

  datatype Props = Props(minSsf: nat, maxSsf: nat, maxBufSize: nat, external: nat)

  datatype Layer = NoLayer | Integrity | Privacy

  /** The strength of a layer; strong is the strength of the mechanism's encryption. */
  function Ssf(l: Layer, strong: nat): nat {
    match l
    case NoLayer => 0
    case Integrity => 1
    case Privacy => strong
  }

  function Bit(l: Layer): nat {
    match l
    case NoLayer => 1
    case Integrity => 2
    case Privacy => 4
  }

  /** Strength already provided outside counts towards both bounds. */
  function Beyond(ssf: nat, external: nat): nat { if ssf < external then 0 else ssf - external }

  function Need(p: Props): nat { Beyond(p.minSsf, p.external) }

  function Allowed(p: Props): nat { Beyond(p.maxSsf, p.external) }

  /** A layer lies within a side's bounds. */
  predicate Acceptable(p: Props, l: Layer, strong: nat) {
    Need(p) <= Ssf(l, strong) <= Allowed(p)
  }

  /** A server offers an actual layer only when it has a buffer for it. */
  predicate Offered(p: Props, l: Layer, strong: nat) {
    (if l == NoLayer then Need(p) == 0 else Acceptable(p, l, strong)) && (l != NoLayer ==> p.maxBufSize != 0)
  }

  /** A layer both sides can live with. */
  predicate Mutual(server: Props, client: Props, l: Layer, strong: nat) {
    Offered(server, l, strong) && Acceptable(client, l, strong)
  }

  /** The strongest layer both sides can live with. */
  ghost predicate Strongest(server: Props, client: Props, l: Layer, strong: nat) {
    Mutual(server, client, l, strong) &&
    forall m :: Mutual(server, client, m, strong) ==> Ssf(m, strong) <= Ssf(l, strong)
  }

  /** A layer is acceptable exactly when its strength and the external one together reach the
      minimum, and, unless it adds nothing, do not exceed the maximum. */
  lemma AcceptableExact(p: Props, l: Layer, strong: nat)
    ensures Acceptable(p, l, strong) <==>
      p.minSsf <= Ssf(l, strong) + p.external &&
      (Ssf(l, strong) == 0 || Ssf(l, strong) + p.external <= p.maxSsf)
  {
  }

  // ----- tokens -----

  const MAX_BUF: nat := 0xFFFFFF

  function Announced(size: nat): nat { if size > MAX_BUF then MAX_BUF else size }

  function SizeBytes(size: nat): (bs: seq<nat>)
    ensures |bs| == 3
  {
    if size > MAX_BUF then [0xFF, 0xFF, 0xFF]
    else [size / 0x10000 % 0x100, size / 0x100 % 0x100, size % 0x100]
  }

  function ReadSize(t: seq<nat>): nat
    requires |t| >= 4
  {
    t[1] * 0x10000 + t[2] * 0x100 + t[3]
  }

  /** Both sides read back the size the other announced, capped to three bytes. */
  lemma SizeRoundTrip(head: nat, size: nat, tail: seq<nat>)
    ensures ReadSize([head] + SizeBytes(size) + tail) == Announced(size)
    ensures ([head] + SizeBytes(size) + tail)[0] == head
  {
    var bs := SizeBytes(size);
    var t := [head] + bs + tail;
    assert t[1] == bs[0] && t[2] == bs[1] && t[3] == bs[2];
    if size <= MAX_BUF { ThreeBytes(size); }
  }

  lemma ThreeBytes(n: nat)
    requires n <= MAX_BUF
    ensures n / 0x10000 % 0x100 * 0x10000 + n / 0x100 % 0x100 * 0x100 + n % 0x100 == n
  {
  }

  /** The higher bytes of a size go first. */
  lemma SizeOrder(a: nat, b: nat, c: nat)
    requires a < 0x100 && b < 0x100 && c < 0x100
    ensures SizeBytes(a * 0x10000 + b * 0x100 + c) == [a, b, c]
  {
    LastByte(a * 0x100 + b, c);
    LastByte(a, b);
  }

  lemma LastByte(n: nat, b: nat)
    requires b < 0x100
    ensures (n * 0x100 + b) / 0x100 == n && (n * 0x100 + b) % 0x100 == b
  {
  }

  predicate Has(mask: nat, l: Layer) { mask / Bit(l) % 2 == 1 }

  // ----- the server's offer -----

  datatype Offer = Refused | Token(bytes: seq<nat>)

  function Mask(p: Props, strong: nat): nat {
    (if Need(p) == 0 then 1 else 0) +
    (if Need(p) <= 1 <= Allowed(p) && p.maxBufSize != 0 then 2 else 0) +
    (if Need(p) <= strong <= Allowed(p) && p.maxBufSize != 0 then 4 else 0)
  }

  function MakeOffer(p: Props, strong: nat): Offer {
    if Need(p) != 0 && p.maxBufSize == 0 then Refused else Token([Mask(p, strong)] + SizeBytes(p.maxBufSize))
  }

  /** The mask lists exactly the layers on offer, and a refusal means that there are none. */
  lemma OfferExact(p: Props, strong: nat, l: Layer)
    ensures Has(Mask(p, strong), l) <==> Offered(p, l, strong)
    ensures MakeOffer(p, strong) == Refused ==> !Offered(p, l, strong)
  {
  }

  /** A server refuses to make an offer exactly when it needs a layer and has no buffer for one. */
  lemma RefusedExact(p: Props, strong: nat)
    ensures MakeOffer(p, strong) == Refused <==> p.minSsf > p.external && p.maxBufSize == 0
  {
  }

  // ----- the client's choice -----

  datatype Choice = TooWeak | BadParam | Chosen(layer: Layer)

  function Choose(p: Props, mask: nat, strong: nat): Choice {
    if p.minSsf > strong + p.external then TooWeak
    else if p.minSsf > p.maxSsf then BadParam
    else if Allowed(p) >= strong && Need(p) <= strong && Has(mask, Privacy) then Chosen(Privacy)
    else if Allowed(p) >= 1 && Need(p) <= 1 && Has(mask, Integrity) then Chosen(Integrity)
    else if Need(p) <= 0 && Has(mask, NoLayer) then Chosen(NoLayer)
    else TooWeak
  }

  /** Whatever mask it is shown, the client takes the strongest layer in it that it accepts. */
  lemma {:induction false} ChooseStrongest(p: Props, mask: nat, strong: nat, l: Layer)
    requires strong > 1
    ensures Choose(p, mask, strong) == Chosen(l) <==>
      p.minSsf <= p.maxSsf && Has(mask, l) && Acceptable(p, l, strong) &&
      forall m :: Has(mask, m) && Acceptable(p, m, strong) ==> Ssf(m, strong) <= Ssf(l, strong)
  {
  }

  /** Contradictory bounds are reported as such, unless the mechanism is too weak anyway. */
  lemma BadParamExact(p: Props, mask: nat, strong: nat)
    ensures Choose(p, mask, strong) == BadParam <==> p.maxSsf < p.minSsf <= strong + p.external
  {
  }

  /** The first token byte of a choice is the layer's bit. */
  function ChoiceToken(l: Layer, p: Props, authzid: seq<nat>): seq<nat> {
    [Bit(l)] + SizeBytes(p.maxBufSize) + authzid
  }

  // ----- the server's verdict -----

  /** The layer a requested bit stands for, if the server lets it pass. */
  function Verdict(p: Props, bit: nat, strong: nat): Option<Layer> {
    if bit == 1 && Need(p) == 0 then Some(NoLayer)
    else if bit == 2 && Need(p) <= 1 && Allowed(p) >= 1 then Some(Integrity)
    else if bit == 4 && Need(p) <= strong && Allowed(p) >= strong then Some(Privacy)
    else None
  }

  /** Every layer on offer passes. */
  lemma VerdictOfOffered(p: Props, l: Layer, strong: nat)
    requires Offered(p, l, strong)
    ensures Verdict(p, Bit(l), strong) == Some(l)
  {
  }

  /** A layer within the server's bounds passes even when it was not on offer; this happens
      exactly when the server has no buffer for a layer. */
  lemma VerdictBeyondOffer(p: Props, l: Layer, strong: nat)
    requires Verdict(p, Bit(l), strong) == Some(l)
    ensures Offered(p, l, strong) <==> p.maxBufSize != 0 || l == NoLayer
  {
  }

  lemma UnofferedLayerPasses()
    ensures exists p, l :: Verdict(p, Bit(l), 56) == Some(l) && !Offered(p, l, 56)
  {
    var p := Props(0, 256, 0, 0);
    assert Verdict(p, Bit(Privacy), 56) == Some(Privacy) && !Offered(p, Privacy, 56);
  }

  /** Offer, choice and verdict together: the two sides end with the strongest mutual layer,
      or with none when there is none. */
  lemma {:induction false} Negotiation(server: Props, client: Props, strong: nat, l: Layer)
    requires strong > 1 && client.minSsf <= client.maxSsf
    ensures Choose(client, Mask(server, strong), strong) == Chosen(l) <==> Strongest(server, client, l, strong)
    ensures Choose(client, Mask(server, strong), strong) == Chosen(l) ==>
      Verdict(server, Bit(l), strong) == Some(l) && MakeOffer(server, strong).Token?
  {
    forall m: Layer ensures Has(Mask(server, strong), m) <==> Offered(server, m, strong) {
      OfferExact(server, strong, m);
    }
    ChooseStrongest(client, Mask(server, strong), strong, l);
    if Choose(client, Mask(server, strong), strong) == Chosen(l) {
      VerdictOfOffered(server, l, strong);
      OfferExact(server, strong, l);
    }
  }

  lemma {:induction false} NegotiationFails(server: Props, client: Props, strong: nat)
    requires strong > 1 && client.minSsf <= client.maxSsf
    ensures Choose(client, Mask(server, strong), strong) == TooWeak <==>
      forall l :: !Mutual(server, client, l, strong)
  {
    forall l: Layer ensures Has(Mask(server, strong), l) <==> Offered(server, l, strong) {
      OfferExact(server, strong, l);
    }
    assert client.minSsf > strong + client.external ==> Need(client) > strong;
    assert forall l :: Mutual(server, client, l, strong) <==>
      Has(Mask(server, strong), l) && Acceptable(client, l, strong);
  }

  // ----- the outgoing buffer -----

  const UINT_RANGE: nat := 0x1_0000_0000

  /** With a layer in place the peer's buffer size is replaced by the mechanism's input limit;
      an excessive limit is subtracted back. */
  function OutBuf(announced: nat, layer: bool, maxInput: nat): nat {
    if !layer then announced
    else if maxInput > announced then (announced - (maxInput - announced)) % UINT_RANGE
    else maxInput
  }

  /** Without a layer the size is the peer's; with one it is the mechanism's limit if that is sensible. */
  lemma OutBufPlain(announced: nat, maxInput: nat)
    ensures OutBuf(announced, false, maxInput) == announced
    ensures maxInput <= announced ==> OutBuf(announced, true, maxInput) == maxInput
  {
  }

  /** If the mechanism reports the largest input that still fits the peer's buffer once it is
      wrapped, that is what may be sent: it fits, and nothing larger does. */
  lemma OutBufFits(announced: nat, maxInput: nat, wrapped: nat -> nat)
    requires maxInput <= announced && forall n: nat :: wrapped(n) <= announced <==> n <= maxInput
    ensures forall n: nat :: wrapped(n) <= announced <==> n <= OutBuf(announced, true, maxInput)
  {
    OutBufPlain(announced, maxInput);
  }

  /** For a mechanism that adds a fixed overhead: whether it reports the size less the overhead or,
      wrongly, the size and the overhead, the result is the largest input that fits. */
  lemma OutBufOverhead(announced: nat, overhead: nat)
    requires overhead <= announced <= MAX_BUF
    ensures OutBuf(announced, true, announced - overhead) == announced - overhead
    ensures OutBuf(announced, true, announced + overhead) == announced - overhead
  {
  }

  /** The result respects the peer's size unless the limit is more than twice that size. */
  lemma OutBufBound(announced: nat, layer: bool, maxInput: nat)
    requires announced <= MAX_BUF && maxInput < UINT_RANGE
    ensures OutBuf(announced, layer, maxInput) <= announced <==>
      !layer || maxInput <= 2 * announced
  {
  }

  // ----- whole runs -----

  datatype Phase = AuthNeg | SsfCap | SsfReq | Authenticated

  /** One side of a connection: where it is, the layer it settled on and the size its peer announced. */
  datatype End = End(phase: Phase, layer: Layer, peerSize: nat)

  /** Both sides and the wrapped tokens each has sent. The network may deliver any of them at
      any time, any number of times, but cannot forge one. */
  datatype State = State(server: End, client: End, offers: seq<seq<nat>>, choices: seq<seq<nat>>,
                         transfers: seq<Transfer>)

  /** Application data that a side wrapped or unwrapped, and the layer it used. */
  datatype Transfer = Transfer(byServer: bool, layer: Layer)

  datatype Config = Config(server: Props, client: Props, strong: nat)

  /** Context rounds go on as the mechanism decides; offers and choices are delivered by index. */
  datatype Step = ServerContext(complete: bool) | ClientContext(complete: bool) | ServerOffer
                | ClientChoice(offer: nat, authzid: seq<nat>) | ServerVerdict(choice: nat, canonical: bool)
                | Data(byServer: bool)

  predicate Enabled(s: State, step: Step) {
    match step
    case ServerContext(_) => s.server.phase == AuthNeg
    case ClientContext(_) => s.client.phase == AuthNeg
    case ServerOffer => s.server.phase == SsfCap
    case ClientChoice(i, _) => s.client.phase == SsfCap && i < |s.offers|
    case ServerVerdict(i, _) => s.server.phase == SsfReq && i < |s.choices|
    case Data(_) => true
  }

  /** A side that is asked to transfer data before it is authenticated reports that it is not done. */
  function Transfers(s: State, byServer: bool): State {
    var end := if byServer then s.server else s.client;
    if end.phase != Authenticated then s else s.(transfers := s.transfers + [Transfer(byServer, end.layer)])
  }

  function ServerOffers(s: State, c: Config): State {
    match MakeOffer(c.server, c.strong)
    case Refused => s
    case Token(bytes) => s.(server := s.server.(phase := SsfReq), offers := s.offers + [bytes])
  }

  function ClientChooses(s: State, token: seq<nat>, authzid: seq<nat>, c: Config): State {
    if |token| < 4 then s
    else
      match Choose(c.client, token[0], c.strong)
      case Chosen(l) =>
        s.(client := End(Authenticated, l, ReadSize(token)), choices := s.choices + [ChoiceToken(l, c.client, authzid)])
      case _ => s
  }

  function ServerDecides(s: State, token: seq<nat>, canonical: bool, c: Config): State {
    if |token| < 4 || !canonical then s
    else
      match Verdict(c.server, token[0], c.strong)
      case Some(l) => s.(server := End(Authenticated, l, ReadSize(token)))
      case None => s
  }

  /** The server authenticates on a choice exactly when it is long enough, names an acceptable user
      and asks for one layer within the server's bounds; anything else changes nothing. */
  lemma ServerDecidesExact(s: State, token: seq<nat>, canonical: bool, c: Config, l: Layer)
    ensures |token| >= 4 && canonical && token[0] == Bit(l) && Within(c.server, l, c.strong) ==>
      ServerDecides(s, token, canonical, c) == s.(server := End(Authenticated, l, ReadSize(token)))
    ensures |token| < 4 || !canonical || (forall m :: token[0] == Bit(m) ==> !Within(c.server, m, c.strong)) ==>
      ServerDecides(s, token, canonical, c) == s
  {
    assert Bit(NoLayer) == 1 && Bit(Integrity) == 2 && Bit(Privacy) == 4;
  }

  /** The bounds a verdict keeps: having no layer is not held against the maximum. */
  predicate Within(p: Props, l: Layer, strong: nat) {
    p.minSsf <= Ssf(l, strong) + p.external && (l == NoLayer || Ssf(l, strong) <= Allowed(p))
  }

  function Apply(s: State, step: Step, c: Config): State
    requires Enabled(s, step)
  {
    match step
    case ServerContext(complete) => if complete then s.(server := s.server.(phase := SsfCap)) else s
    case ClientContext(complete) => if complete then s.(client := s.client.(phase := SsfCap)) else s
    case ServerOffer => ServerOffers(s, c)
    case ClientChoice(i, authzid) => ClientChooses(s, s.offers[i], authzid, c)
    case ServerVerdict(i, canonical) => ServerDecides(s, s.choices[i], canonical, c)
    case Data(byServer) => Transfers(s, byServer)
  }

  function Start(): State {
    State(End(AuthNeg, NoLayer, 0), End(AuthNeg, NoLayer, 0), [], [], [])
  }

  predicate IsRun(s: State, steps: seq<Step>, c: Config)
    decreases |steps|
  {
    steps == [] || (Enabled(s, steps[0]) && IsRun(Apply(s, steps[0], c), steps[1..], c))
  }

  function Exec(s: State, steps: seq<Step>, c: Config): State
    requires IsRun(s, steps, c)
    decreases |steps|
  {
    if steps == [] then s else Exec(Apply(s, steps[0], c), steps[1..], c)
  }

  predicate Offering(s: State) { s.server.phase == SsfReq || s.server.phase == Authenticated }

  /** The only offer ever sent is the server's, which then waits for a choice. */
  ghost predicate OfferInv(s: State, c: Config) {
    (s.offers != [] ==> MakeOffer(c.server, c.strong).Token? && Offering(s)) &&
    forall i :: 0 <= i < |s.offers| ==> MakeOffer(c.server, c.strong) == Token(s.offers[i])
  }

  /** An authenticated client took the strongest mutual layer from that offer. */
  ghost predicate ClientInv(s: State, c: Config) {
    s.client.phase == Authenticated ==>
      Choose(c.client, Mask(c.server, c.strong), c.strong) == Chosen(s.client.layer) &&
      s.client.peerSize == Announced(c.server.maxBufSize) && s.offers != []
  }

  predicate ChoiceOk(token: seq<nat>, client: End, c: Config) {
    client.phase == Authenticated && |token| >= 4 && token[0] == Bit(client.layer) &&
    ReadSize(token) == Announced(c.client.maxBufSize)
  }

  /** The only choices ever sent are the authenticated client's. */
  ghost predicate ChoiceInv(s: State, c: Config) {
    forall i :: 0 <= i < |s.choices| ==> ChoiceOk(s.choices[i], s.client, c)
  }

  /** An authenticated server agrees with an authenticated client. */
  ghost predicate ServerInv(s: State, c: Config) {
    s.server.phase == Authenticated ==>
      s.client.phase == Authenticated && s.server.layer == s.client.layer &&
      s.server.peerSize == Announced(c.client.maxBufSize)
  }

  predicate TransferOk(t: Transfer, server: End, client: End) {
    client.phase == Authenticated && t.layer == client.layer && (t.byServer ==> server.phase == Authenticated)
  }

  /** Data has been transferred with the client's layer only, and by the server only when it is authenticated. */
  ghost predicate TransferInv(s: State) {
    forall i :: 0 <= i < |s.transfers| ==> TransferOk(s.transfers[i], s.server, s.client)
  }

  ghost predicate Inv(s: State, c: Config) {
    OfferInv(s, c) && ClientInv(s, c) && ChoiceInv(s, c) && ServerInv(s, c) && TransferInv(s)
  }

  lemma OfferReads(c: Config)
    requires MakeOffer(c.server, c.strong).Token?
    ensures var t := MakeOffer(c.server, c.strong).bytes;
      |t| == 4 && t[0] == Mask(c.server, c.strong) && ReadSize(t) == Announced(c.server.maxBufSize)
  {
    SizeRoundTrip(Mask(c.server, c.strong), c.server.maxBufSize, []);
    var t := [Mask(c.server, c.strong)] + SizeBytes(c.server.maxBufSize);
    assert t + [] == t;
  }

  lemma ChoiceReads(l: Layer, p: Props, authzid: seq<nat>)
    ensures var t := ChoiceToken(l, p, authzid);
      |t| >= 4 && t[0] == Bit(l) && ReadSize(t) == Announced(p.maxBufSize)
  {
    SizeRoundTrip(Bit(l), p.maxBufSize, authzid);
  }

  lemma BitVerdict(p: Props, l: Layer, strong: nat)
    ensures Verdict(p, Bit(l), strong).Some? ==> Verdict(p, Bit(l), strong).value == l
  {
  }

  lemma {:induction false} ChoiceKeeps(s: State, i: nat, authzid: seq<nat>, c: Config)
    requires Inv(s, c) && Enabled(s, ClientChoice(i, authzid))
    ensures Inv(ClientChooses(s, s.offers[i], authzid, c), c)
  {
    assert MakeOffer(c.server, c.strong) == Token(s.offers[i]);
    OfferReads(c);
    match Choose(c.client, s.offers[i][0], c.strong)
    case Chosen(l) => ChoiceReads(l, c.client, authzid);
    case _ =>
  }

  lemma {:induction false} VerdictKeeps(s: State, i: nat, canonical: bool, c: Config)
    requires Inv(s, c) && Enabled(s, ServerVerdict(i, canonical))
    ensures Inv(ServerDecides(s, s.choices[i], canonical, c), c)
  {
    BitVerdict(c.server, s.client.layer, c.strong);
  }

  /** Before the offer nothing has happened, and before the client finishes it has sent no choice
      and nothing has been transferred. */
  lemma {:induction false} Quiet(s: State, c: Config)
    requires Inv(s, c)
    ensures !Offering(s) ==> s.offers == [] && s.client.phase != Authenticated
    ensures s.client.phase != Authenticated ==> s.choices == [] && s.transfers == []
  {
    assert s.choices != [] ==> ChoiceOk(s.choices[0], s.client, c);
    assert s.transfers != [] ==> TransferOk(s.transfers[0], s.server, s.client);
  }

  lemma {:induction false} OfferKeeps(s: State, c: Config)
    requires Inv(s, c) && Enabled(s, ServerOffer)
    ensures Inv(ServerOffers(s, c), c)
  {
    Quiet(s, c);
  }

  lemma {:induction false} DataKeeps(s: State, byServer: bool, c: Config)
    requires Inv(s, c)
    ensures Inv(Transfers(s, byServer), c)
  {
    var t := Transfers(s, byServer);
    assert forall i :: 0 <= i < |s.transfers| ==> t.transfers[i] == s.transfers[i];
  }

  lemma {:induction false} ContextKeeps(s: State, step: Step, c: Config)
    requires Inv(s, c) && Enabled(s, step) && (step.ServerContext? || step.ClientContext?)
    ensures Inv(Apply(s, step, c), c)
  {
    Quiet(s, c);
  }

  lemma {:induction false} StepKeeps(s: State, step: Step, c: Config)
    requires Inv(s, c) && Enabled(s, step)
    ensures Inv(Apply(s, step, c), c)
  {
    match step
    case ClientChoice(i, authzid) => ChoiceKeeps(s, i, authzid, c);
    case ServerVerdict(i, canonical) => VerdictKeeps(s, i, canonical, c);
    case ServerOffer => OfferKeeps(s, c);
    case Data(byServer) => DataKeeps(s, byServer, c);
    case _ => ContextKeeps(s, step, c);
  }

  lemma {:induction false} RunKeeps(s: State, steps: seq<Step>, c: Config)
    requires Inv(s, c) && IsRun(s, steps, c)
    ensures Inv(Exec(s, steps, c), c)
    decreases |steps|
  {
    if steps != [] {
      StepKeeps(s, steps[0], c);
      RunKeeps(Apply(s, steps[0], c), steps[1..], c);
    }
  }

  /** What the two sides know of each other in a state. */
  ghost predicate Agreed(s: State, c: Config) {
    (s.client.phase == Authenticated ==>
      Strongest(c.server, c.client, s.client.layer, c.strong) &&
      s.client.peerSize == Announced(c.server.maxBufSize) && Offering(s)) &&
    (forall i :: 0 <= i < |s.choices| ==>
      s.client.phase == Authenticated && |s.choices[i]| >= 4 &&
      Verdict(c.server, s.choices[i][0], c.strong) == Some(s.client.layer)) &&
    (s.server.phase == Authenticated ==>
      s.client.phase == Authenticated && s.server.layer == s.client.layer &&
      s.server.peerSize == Announced(c.client.maxBufSize))
  }

  lemma {:induction false} InvAgreed(s: State, c: Config)
    requires Inv(s, c) && c.strong > 1
    ensures Agreed(s, c)
  {
    if s.client.phase == Authenticated {
      assert c.client.minSsf <= c.client.maxSsf;
      Negotiation(c.server, c.client, c.strong, s.client.layer);
    }
    Quiet(s, c);
    forall i | 0 <= i < |s.choices|
      ensures |s.choices[i]| >= 4 && Verdict(c.server, s.choices[i][0], c.strong) == Some(s.client.layer) {
      assert ChoiceOk(s.choices[i], s.client, c);
    }
  }

  /** Whatever the network delivers: a finished client has the strongest layer that both sides accept,
      its server waits for or has taken the choice and lets every choice sent pass; an authenticated
      server has a finished client with the same layer; and each side knows the other's buffer size. */
  lemma {:induction false} Agreement(steps: seq<Step>, c: Config)
    requires IsRun(Start(), steps, c) && c.strong > 1
    ensures Agreed(Exec(Start(), steps, c), c)
  {
    RunKeeps(Start(), steps, c);
    InvAgreed(Exec(Start(), steps, c), c);
  }

  /** In no run is data transferred before the client has finished, by the server before both have,
      or with any layer but the strongest that both sides accept. */
  lemma {:induction false} TransfersAgree(steps: seq<Step>, c: Config, i: nat)
    requires IsRun(Start(), steps, c) && c.strong > 1 && i < |Exec(Start(), steps, c).transfers|
    ensures var s := Exec(Start(), steps, c); var t := s.transfers[i];
      Strongest(c.server, c.client, t.layer, c.strong) && s.client.phase == Authenticated &&
      (t.byServer ==> s.server.phase == Authenticated && s.server.layer == t.layer)
  {
    RunKeeps(Start(), steps, c);
    InvAgreed(Exec(Start(), steps, c), c);
  }

  /** The size a client announces plays no part in its choice: with no buffer it announces size zero
      and still takes the strongest mutual layer, whether or not that needs a buffer. */
  lemma {:induction false} BufferlessClient(server: Props, client: Props, strong: nat, l: Layer, size: nat)
    requires strong > 1 && client.minSsf <= client.maxSsf
    ensures var p := client.(maxBufSize := size);
      Choose(p, Mask(server, strong), strong) == Chosen(l) <==> Strongest(server, client, l, strong)
    ensures ReadSize(ChoiceToken(l, client.(maxBufSize := size), [])) == 0 <==> size == 0
  {
    var p := client.(maxBufSize := size);
    Negotiation(server, p, strong, l);
    ChoiceReads(l, p, []);
    assert forall m :: Mutual(server, p, m, strong) <==> Mutual(server, client, m, strong);
  }

  /** If a mutual layer exists, some run authenticates both sides. */
  lemma {:induction false} Completes(c: Config, l: Layer, authzid: seq<nat>)
    requires c.strong > 1 && c.client.minSsf <= c.client.maxSsf && Strongest(c.server, c.client, l, c.strong)
    ensures exists steps :: IsRun(Start(), steps, c) && Exec(Start(), steps, c).server.phase == Authenticated
  {
    Negotiation(c.server, c.client, c.strong, l);
    OfferReads(c);
    ChoiceReads(l, c.client, authzid);
    var s1 := Apply(Start(), ServerContext(true), c);
    var s2 := Apply(s1, ClientContext(true), c);
    var s3 := Apply(s2, ServerOffer, c);
    var s4 := Apply(s3, ClientChoice(0, authzid), c);
    var s5 := Apply(s4, ServerVerdict(0, true), c);
    assert s5.server.phase == Authenticated;
    RunOne(s5, [], c);
    Prepend(s4, ServerVerdict(0, true), [], s5, c);
    var t4 := [ServerVerdict(0, true)];
    assert [ServerVerdict(0, true)] + [] == t4;
    Prepend(s3, ClientChoice(0, authzid), t4, s5, c);
    var t3 := [ClientChoice(0, authzid)] + t4;
    Prepend(s2, ServerOffer, t3, s5, c);
    var t2 := [ServerOffer] + t3;
    Prepend(s1, ClientContext(true), t2, s5, c);
    var t1 := [ClientContext(true)] + t2;
    Prepend(Start(), ServerContext(true), t1, s5, c);
  }

  lemma RunOne(s: State, steps: seq<Step>, c: Config)
    requires steps == []
    ensures IsRun(s, steps, c) && Exec(s, steps, c) == s
  {
  }

  lemma {:induction false} Prepend(s: State, step: Step, steps: seq<Step>, end: State, c: Config)
    requires Enabled(s, step) && IsRun(Apply(s, step, c), steps, c) && Exec(Apply(s, step, c), steps, c) == end
    ensures IsRun(s, [step] + steps, c) && Exec(s, [step] + steps, c) == end
  {
    assert ([step] + steps)[1..] == steps;
  }

  // ----- one side's context -----

  datatype Code = Ok | Continue | NotDone | Fail | Weak | BadParameter

  /** The plug-in's connection context and the parameters it reports. */
  class Context {
    var state: Phase
    var limitSsf: nat
    var requireSsf: nat
    var mechSsf: nat
    var maxOutBuf: nat
    var done: bool

    constructor ()
      ensures state == AuthNeg && !done
    {
      state, limitSsf, requireSsf, mechSsf, maxOutBuf, done := AuthNeg, 0, 0, 0, 0, false;
    }

    /** The server offers its layers. */
    method ServerOffer(p: Props, strong: nat) returns (code: Code, token: seq<nat>)
      requires state == SsfCap
      modifies this
      ensures limitSsf == Allowed(p) && requireSsf == Need(p)
      ensures mechSsf == old(mechSsf) && maxOutBuf == old(maxOutBuf) && done == old(done)
      ensures match MakeOffer(p, strong)
        case Refused => code == Weak && state == SsfCap
        case Token(bytes) => code == Continue && state == SsfReq && token == bytes
    {
      token := [];
      limitSsf := if p.maxSsf < p.external then 0 else p.maxSsf - p.external;
      requireSsf := if p.minSsf < p.external then 0 else p.minSsf - p.external;
      if requireSsf != 0 && p.maxBufSize == 0 { return Weak, token; }
      var mask := 0;
      if requireSsf == 0 { mask := mask + 1; }
      if requireSsf <= 1 && limitSsf >= 1 && p.maxBufSize != 0 { mask := mask + 2; }
      if requireSsf <= strong && limitSsf >= strong && p.maxBufSize != 0 { mask := mask + 4; }
      token := [mask] + SizeBytes(p.maxBufSize);
      state := SsfReq;
      code := Continue;
    }

    /** The server lets the client's choice pass or rejects it; canonical says whether the
        user names were accepted. */
    method ServerVerdict(token: seq<nat>, p: Props, strong: nat, canonical: bool, maxInput: nat) returns (code: Code)
      requires state == SsfReq && limitSsf == Allowed(p) && requireSsf == Need(p) && token != []
      modifies this
      ensures limitSsf == old(limitSsf) && requireSsf == old(requireSsf)
      ensures code == Ok <==> Verdict(p, token[0], strong).Some? && |token| >= 4 && canonical
      ensures code == Ok ==> state == Authenticated && done
      ensures code == Ok ==> mechSsf == Ssf(Verdict(p, token[0], strong).value, strong)
      ensures code == Ok ==> maxOutBuf == OutBuf(ReadSize(token), mechSsf != 0, maxInput)
      ensures code != Ok ==> state == SsfReq && done == old(done)
    {
      if token[0] == 1 && requireSsf == 0 {
        mechSsf := 0;
      } else if token[0] == 2 && requireSsf <= 1 && limitSsf >= 1 {
        mechSsf := 1;
      } else if token[0] == 4 && requireSsf <= strong && limitSsf >= strong {
        mechSsf := strong;
      } else {
        mechSsf := 2;
        return Fail;
      }
      if |token| < 4 || !canonical { return Fail; }
      maxOutBuf := ReadSize(token);
      if mechSsf != 0 {
        maxOutBuf := if maxInput > maxOutBuf then (maxOutBuf - (maxInput - maxOutBuf)) % UINT_RANGE else maxInput;
      }
      state := Authenticated;
      done := true;
      code := Ok;
    }

    /** The client picks a layer from the offer and answers with it. */
    method ClientChoice(offer: seq<nat>, p: Props, strong: nat, authzid: seq<nat>, maxInput: nat)
      returns (code: Code, token: seq<nat>)
      requires state == SsfCap && |offer| >= 4
      modifies this
      ensures limitSsf == old(limitSsf) && requireSsf == old(requireSsf)
      ensures match Choose(p, offer[0], strong)
        case TooWeak => code == Weak && state == SsfCap && done == old(done)
        case BadParam => code == BadParameter && state == SsfCap && done == old(done)
        case Chosen(l) =>
          code == Ok && state == Authenticated && done && mechSsf == Ssf(l, strong) &&
          token == ChoiceToken(l, p, authzid)
      ensures code == Ok ==> maxOutBuf == OutBuf(ReadSize(offer), mechSsf != 0, maxInput)
    {
      token := [];
      if p.minSsf > strong + p.external { return Weak, token; }
      if p.minSsf > p.maxSsf { return BadParameter, token; }
      var allowed := if p.maxSsf >= p.external then p.maxSsf - p.external else 0;
      var need := if p.minSsf >= p.external then p.minSsf - p.external else 0;
      var choice;
      if allowed >= strong && need <= strong && offer[0] / 4 % 2 == 1 {
        mechSsf, choice := strong, 4;
      } else if allowed >= 1 && need <= 1 && offer[0] / 2 % 2 == 1 {
        mechSsf, choice := 1, 2;
      } else if need <= 0 && offer[0] % 2 == 1 {
        mechSsf, choice := 0, 1;
      } else {
        return Weak, token;
      }
      maxOutBuf := ReadSize(offer);
      if mechSsf != 0 {
        maxOutBuf := if maxInput > maxOutBuf then (maxOutBuf - (maxInput - maxOutBuf)) % UINT_RANGE else maxInput;
      }
      token := [choice] + SizeBytes(p.maxBufSize) + authzid;
      state := Authenticated;
      done := true;
      code := Ok;
    }

    /** Data is wrapped or unwrapped only once the negotiation is complete. */
    method Transfer(data: seq<nat>, transform: seq<nat> -> seq<nat>) returns (code: Code, result: seq<nat>)
      ensures code == (if state == Authenticated then Ok else NotDone)
      ensures result == if code == Ok then transform(data) else []
    {
      if state != Authenticated { return NotDone, []; }
      return Ok, transform(data);
    }
  }
}
