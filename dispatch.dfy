/**
 * `sendMail`: in fake mode answer with a synthetic result and leave the mail
 * provider alone; otherwise hand one options record to the provider and pass
 * on its answer.
 */
module Dispatch {
  import opened Values
  import opened Setup

  const FakeMessage: string := "fake response"

  /**
   * `merge({message: 'fake response'}, {formData})`: the synthetic result
   * holds the fixed message and the assembled message unchanged.
   */
  function FakeResponse(formData: map<string, Value>): (r: Value)
    ensures r.Obj? && r.props.Keys == {"message", "formData"}
    ensures r.props["message"] == Str("fake response")
    ensures r.props["formData"] == Obj(formData)
  {
    Obj(map["message" := Str(FakeMessage), "formData" := Obj(formData)])
  }

  /**
   * `{from: AWS_SES_MAIL_FROM, attachments: [formData.attachment], ...formData}`:
   * the spread comes last, so every property of `formData` (a `from` the
   * request supplied included) wins over the two set before it.
   */
  function MailOptions(mailFrom: Value, formData: map<string, Value>): (options: map<string, Value>)
    ensures options.Keys == formData.Keys + {"from", "attachments"}
    ensures forall k :: k in formData ==> options[k] == formData[k]
    ensures options["from"] == if "from" in formData then formData["from"] else mailFrom
    ensures "attachments" !in formData ==> options["attachments"] == List([Get(formData, "attachment")])
  {
    map["from" := mailFrom, "attachments" := List([Get(formData, "attachment")])] + formData
  }

  /** Every other property of the options is the message's own, present or absent alike. */
  lemma OptionsCarry(mailFrom: Value, formData: map<string, Value>, k: string)
    requires k != "from" && k != "attachments"
    ensures Get(MailOptions(mailFrom, formData), k) == Get(formData, k)
  {
  }

  /** The mail provider (nodemailer over SES), seen from the relay. */
  class Transport {
    /** Every options record handed to the provider, oldest first. */
    var outbox: seq<map<string, Value>>

    /** What the provider answers to an options record: the send's info, or an error. */
    const answer: map<string, Value> -> Result<Value, Value>

    constructor (answer: map<string, Value> -> Result<Value, Value>)
      ensures outbox == [] && this.answer == answer
    {
      outbox := [];
      this.answer := answer;
    }

    /** `mailer.sendMail(options, callback)`, one attempt, no retry. */
    method Send(options: map<string, Value>) returns (r: Result<Value, Value>)
      modifies this
      ensures outbox == old(outbox) + [options]
      ensures r == answer(options)
    {
      outbox := outbox + [options];
      r := answer(options);
    }
  }

  /**
   * `sendMail(fields, {formData})`: a truthy `fields.fake` resolves with the
   * fake response and sends nothing; otherwise exactly one options record is
   * sent and the provider's info resolves, or its error rejects, unchanged.
   */
  method SendMail(cfg: Config, transport: Transport, fields: map<string, Value>, formData: map<string, Value>)
    returns (r: Result<Value, Value>)
    modifies transport
    ensures Truthy(Get(fields, "fake")) ==>
      r == Ok(FakeResponse(formData)) && transport.outbox == old(transport.outbox)
    ensures !Truthy(Get(fields, "fake")) ==>
      transport.outbox == old(transport.outbox) + [MailOptions(cfg.Sender(), formData)] &&
      r == transport.answer(MailOptions(cfg.Sender(), formData))
  {
    var fake := Get(fields, "fake");
    if Truthy(fake) {
      return Ok(FakeResponse(formData));
    }
    r := transport.Send(MailOptions(cfg.Sender(), formData));
  }
}
