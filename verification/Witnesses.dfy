/**
  A run that shows why ack soundness must speak of discarded messages: the
  unexpected handler may finish with a medium message after its first fragment,
  and the message is acked although its other fragment was never posted.
*/
module Witnesses {
  import opened Seqnums
  import opened Fragments
  import opened Messages
  import opened Receiving
  import S = Sending
  import opened Protocol
  import R = Reception
  import E = Emission

  /** A message of two fragments. */
  function TwoFragments(): (m: Msg)
    ensures ValidMsg(m) && m.kind == Medium && m.info == 0 && PacketCount(m) == 2
  {
    var data := seq(FRAG_MAX + 1, _ => 0);
    assert (2 * FRAG_MAX) / FRAG_MAX == 2;
    Msg(Medium, 0, data)
  }

  function NewEndpoint(): Endpoint {
    var sender := S.Sender(Wire(0, 1), Wire(0, 1), [], [], [], 0, [], [], []);
    Endpoint(0, sender, Receiver(Wire(0, 1), Wire(0, 1), [], [], []), 0, 0, [])
  }

  function First(): Packet {
    PacketOf(TwoFragments(), Wire(0, 1), Wire(0, 1), 0)
  }

  /** The sender after the submission, and after the ack. */
  function Submitted(): Endpoint {
    var pending := [S.SendReq(0, Wire(0, 1))];
    NewEndpoint().(send := S.Sender(Wire(0, 2), Wire(0, 1), pending, [], [], 0, [TwoFragments()], [], []),
                   submitted := [TwoFragments()])
  }

  function Acked(): Endpoint {
    Submitted().(send := S.Sender(Wire(0, 2), Wire(0, 2), [], [], [], 0, [TwoFragments()], [0], []),
                 lastRecvAcknum := 1)
  }

  /** The receiver after the handler has finished with the message, and after its ack. */
  function Dropped(): Endpoint {
    var nothing := Reassembly(|TwoFragments().data|, 0, [], {}, 0);
    var dropped := Delivery(Wire(0, 1), Medium, 0, Discarded, [], nothing);
    NewEndpoint().(recv := Receiver(Wire(0, 2), Wire(0, 2), [dropped], [], []))
  }

  function DataFlight(): Flight {
    Data(1, 1, First())
  }

  function AckFlight(): Flight {
    Liback(2, Wire(0, 2), 1)
  }

  function TheRun(): seq<System> {
    var begin := NewEndpoint();
    [System(begin, begin, {}, {}),
     System(Submitted(), begin, {DataFlight()}, {}),
     System(Submitted(), Dropped(), {DataFlight()}, {}),
     System(Submitted(), Dropped().(lastSendAcknum := 1), {DataFlight()}, {AckFlight()}),
     System(Acked(), Dropped().(lastSendAcknum := 1), {DataFlight()}, {AckFlight()})]
  }

  lemma SubmitStep()
    ensures StepAt(NewEndpoint(), Submitted(), {}, {DataFlight()}, {}, DoSubmit(TwoFragments(), true))
  {
    hide TwoFragments;
    var x, x' := NewEndpoint(), Submitted();
    assert IsPost(DataFlight(), x'.send, 0, x.recv);
    assert MayPost(DataFlight(), x, x', DoSubmit(TwoFragments(), true));
  }

  lemma DropOrdered()
    ensures Ordered(NewEndpoint().recv, First(), Discard) == Dropped().recv
  {
    hide TwoFragments, Continue, Bind, TakeFrag;
  }

  lemma DropProcessed()
    ensures Process(NewEndpoint().recv, First(), [Discard]) == Dropped().recv
  {
    hide TwoFragments, Ordered, Postpone;
    DropOrdered();
    assert Dropped().recv.early == [];
  }

  lemma DropStep()
    ensures StepAt(NewEndpoint(), Dropped(), {}, {}, {DataFlight()}, OnData(DataFlight(), [Discard]))
  {
    hide TwoFragments, Process;
    DropProcessed();
  }

  lemma LibackStep()
    ensures var x := Dropped();
            StepAt(x, x.(lastSendAcknum := 1), {}, {AckFlight()}, {DataFlight()}, DoLiback)
  {
    hide TwoFragments;
    var x := Dropped();
    assert MayPost(AckFlight(), x, x.(lastSendAcknum := 1), DoLiback);
  }

  lemma AckStep()
    ensures StepAt(Submitted(), Acked(), {DataFlight()}, {DataFlight()}, {AckFlight()}, OnLiback(AckFlight()))
  {
    hide TwoFragments;
    var x := Submitted();
    assert x.send.nonAcked[1..] == [] && x.send.nonAcked[..1] == x.send.nonAcked;
    assert S.Ids(x.send.nonAcked) == [0];
    assert S.HandleAck(x.send, Wire(0, 2)) == Acked().send;
  }

  /** The send completes with success, one fragment of two ever in the network and nothing received. */
  lemma DiscardedIsAcked()
    ensures var run := TheRun();
            && Run(run)
            && run[4].a.send.completed == [0] && run[4].a.send.sent == [TwoFragments()]
            && run[4].ab == {DataFlight()} && DataFlight().packet.frag == 0
            && run[4].b.recv.inbox[0].owner == Discarded && run[4].b.recv.inbox[0].rx.mask == {}
  {
    hide TwoFragments, StepAt, Wire, AckFlight;
    var run := TheRun();
    SubmitStep();
    DropStep();
    LibackStep();
    AckStep();
    assert StepA(run[0], run[1]) && StepA(Swap(run[1]), Swap(run[2]));
    assert StepA(Swap(run[2]), Swap(run[3])) && StepA(run[3], run[4]);
    forall i | 0 <= i < |run| - 1
      ensures Step(run[i], run[i + 1])
    {
      assert i == 0 || i == 1 || i == 2 || i == 3;
    }
  }
}
