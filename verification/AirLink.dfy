/** The whole receive path: AX.25 frames, HDLC framing, and back. */
module AirLink {
  import opened Bytes
  import opened Hdlc
  import opened Ax25

  datatype Message = Message(source: string, destination: string, information: seq<byte>, digipeaters: seq<string>)
  {
    /** The frame as it goes between flags. */
    function Encoded(): Result<seq<byte>, Ax25Error> {
      Built(source, destination, information, digipeaters, false, true)
    }

    /** The frame a receiver should report. */
    function Expected(): Result<Frame, Ax25Error> {
      match ParseAll([source, destination] + digipeaters)
      case Failure(e) => Failure(e)
      case Success(a) => if |a| < 2 then Failure(InvalidCallsign) else Success(Sent(a, information, Some(true)))
    }
  }

  predicate AllEncodable(messages: seq<Message>) {
    forall i | 0 <= i < |messages| :: messages[i].Encoded().Success?
  }

  function EncodeAll(messages: seq<Message>): (frames: seq<seq<byte>>)
    requires AllEncodable(messages)
    ensures |frames| == |messages|
  {
    seq(|messages|, i requires 0 <= i < |messages| => messages[i].Encoded().value)
  }

  lemma FrameLength(m: Message)
    requires m.Encoded().Success?
    ensures |m.Encoded().value| >= MIN_FRAME
  {
    hide ParseCallsign, EncodeAddress, Canonical, BodyOf;
    var a := BuiltBody(m.source, m.destination, m.information, m.digipeaters, false, true);
    BodyRoundTrip(a, m.information, None);
  }

  /**
   * Any number of messages, built, stuffed and flagged, sent after any noise: the deframer appends one frame
   * per message in order, and each decodes to the addresses, path and information that were sent.
   */
  lemma MessagesArrive(noise: seq<bool>, lead: seq<bool>, messages: seq<Message>, fills: seq<seq<bool>>)
    requires AllEncodable(messages) && |fills| == |messages|
    ensures Run(START, noise + (Flags(lead) + Stream(EncodeAll(messages), fills))).out ==
      Run(START, noise + FLAG).out + EncodeAll(messages)
    ensures forall i | 0 <= i < |messages| ::
      messages[i].Expected().Success? && Decoded(EncodeAll(messages)[i], true) == messages[i].Expected()
  {
    hide Built, Decoded, Step, ParseAll;
    var frames := EncodeAll(messages);
    forall i | 0 <= i < |messages|
      ensures messages[i].Expected().Success? && Decoded(frames[i], true) == messages[i].Expected()
      ensures |frames[i]| >= MIN_FRAME
    {
      var m := messages[i];
      FrameRoundTrip(m.source, m.destination, m.information, m.digipeaters, false, true);
      FrameLength(m);
    }
    Resynchronisation(noise, lead, frames, fills);
    KeptAll(frames);
  }
}
