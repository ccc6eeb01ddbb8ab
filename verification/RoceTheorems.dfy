/** What the receiver of the packetizer gets. */
module RoceTheorems {
  import opened RoceFraming
  import opened RoceCore
  import opened RoceRuns
  import opened RoceReceiver

  /**
   * Frame and deframe: whatever the stalls, once there were as many ready calls as the
   * framing has beats, the receiver has every message, byte for byte and in order.
   */
  lemma FrameDeframe(f: Flags, params: seq<Parameters>, d: seq<Beat>, answers: seq<Answers>)
    requires StreamOk(d) && ReadyCalls(answers) >= |Frame(f, params, d)|
    ensures Receive(ToFlits(Run(Start(f, params, d), answers).payloadOut)) == Messages(params, d)
  {
    CompleteRun(f, params, d, answers);
    FrameRoundTrip(f, params, d);
  }
}
