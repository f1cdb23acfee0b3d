/**
 * The `POST /:_to` handler: parse the request, refuse recipients outside the
 * allow-list, send, and answer with a redirect or the send result as JSON.
 */
module Handler {
  import opened Values
  import opened Partition
  import opened Setup
  import opened Request
  import opened Dispatch

  /** Why a request ends in `next(error)`. */
  datatype Failure =
    | UnknownEmailAddress     // `new Error('Unknown email address')`
    | SendFailed(error: Value) // the provider's error, unchanged

  /** How a request ends. */
  datatype Outcome =
    | Redirect(url: Value)
    | Json(body: Value)
    | Failed(failure: Failure)

  /**
   * lodash `indexOf(list, v)`: the first position holding a value strictly
   * equal to `v`, or -1. A string equals `v` only when `v` is that very string.
   */
  function IndexOf(list: seq<string>, v: Value): (i: int)
    ensures -1 <= i < |list|
    ensures i >= 0 ==> v == Str(list[i]) && forall j :: 0 <= j < i ==> v != Str(list[j])
    ensures i < 0 ==> forall j :: 0 <= j < |list| ==> v != Str(list[j])
  {
    if list == [] then -1
    else if v == Str(list[0]) then 0
    else
      var k := IndexOf(list[1..], v);
      if k < 0 then -1 else k + 1
  }

  /** The guard passes: `indexOf(KNOWN_EMAILS, formData.to)` is not negative. */
  predicate Accepts(known: seq<string>, to: Value) {
    IndexOf(known, to) >= 0
  }

  /** The guard is exact membership: no case folding, no trimming, strings only. */
  lemma AcceptsExactly(known: seq<string>, to: Value)
    ensures Accepts(known, to) <==> to.Str? && to.s in known
  {
    if to.Str? && to.s in known {
      var i :| 0 <= i < |known| && known[i] == to.s;
      assert to == Str(known[i]);
    }
  }

  /** With `KNOWN_EMAILS` unset the list is `['']`, which admits the empty address only. */
  lemma UnsetAllowList(to: Value)
    ensures KnownEmails(None) == [""]
    ensures Accepts(KnownEmails(None), to) <==> to == Str("")
  {
    AcceptsExactly(KnownEmails(None), to);
  }

  /**
   * With `KNOWN_EMAILS` unset, `POST /:_to` refuses every request except one
   * whose `_to` is the empty string; a request without `_to` is refused too.
   */
  lemma UnsetEnvironmentGuard(cfg: Config, req: Req)
    requires cfg.knownEmailsEnv.None?
    ensures Accepts(cfg.AllowList(), Param(req.params, "_to")) <==> Param(req.params, "_to") == Str("")
    ensures !Has(req.params, "_to") ==> !Accepts(cfg.AllowList(), Param(req.params, "_to"))
  {
    UnsetAllowList(Param(req.params, "_to"));
    if !Has(req.params, "_to") {
      assert Find(req.params, "_to").None?;
    }
  }

  /**
   * A variable listing comma-free addresses admits exactly those addresses,
   * and no address holding a comma is ever admitted.
   */
  lemma ConfiguredAllowList(addresses: seq<string>, to: Value)
    requires |addresses| >= 1
    requires forall i :: 0 <= i < |addresses| ==> ',' !in addresses[i]
    ensures Accepts(KnownEmails(Some(Join(addresses, ','))), to) <==> to.Str? && to.s in addresses
  {
    SplitJoin(addresses, ',');
    AcceptsExactly(KnownEmails(Some(Join(addresses, ','))), to);
  }

  /** An address holding a comma never passes the guard, whatever the variable says. */
  lemma CommaNeverAccepted(variable: Option<string>, address: string)
    requires ',' in address
    ensures !Accepts(KnownEmails(variable), Str(address))
  {
    AcceptsExactly(KnownEmails(variable), Str(address));
  }

  /**
   * After a successful send: redirect to `fields.next` when it is truthy,
   * otherwise answer with the send result as JSON.
   */
  function Respond(fields: map<string, Value>, response: Value): (o: Outcome)
    ensures o.Redirect? <==> Truthy(Get(fields, "next"))
    ensures o.Redirect? ==> o.url == Get(fields, "next")
    ensures !o.Redirect? ==> o == Json(response)
  {
    var redirect := Get(fields, "next");
    if Truthy(redirect) then Redirect(redirect) else Json(response)
  }

  /**
   * The answer to a request depends on its `_next` alone: a redirect to
   * exactly that value when it is truthy, the send result otherwise.
   */
  lemma RespondToNext(cfg: Config, req: Req, n: nat, response: Value)
    ensures var out := Respond(Parse(cfg, req, n).fields, response);
      out == if Truthy(Param(req.params, "_next")) then Redirect(Param(req.params, "_next")) else Json(response)
  {
    ParseNext(cfg, req, n);
  }

  /**
   * The options the provider receives: the sender is the request's `_from`
   * when it has one and the configured sender otherwise, the recipient and
   * subject are the request's, and `attachments` wraps `formData.attachment`.
   */
  lemma SenderAndRecipient(cfg: Config, req: Req, n: nat)
    ensures var formData := Parse(cfg, req, n).formData;
      var options := MailOptions(cfg.Sender(), formData);
      && options["from"] == (if Has(req.params, "_from") then Param(req.params, "_from") else cfg.Sender())
      && Get(options, "to") == Param(req.params, "_to")
      && Get(options, "subject") == Param(req.params, "_subject")
      && options["attachments"] == List([Get(formData, "attachment")])
  {
    var formData := Parse(cfg, req, n).formData;
    NoAttachmentsProperty(cfg, req, n);
    assert ("from" in formData <==> Has(req.params, "_from"))
      && Get(formData, "from") == Param(req.params, "_from") by {
      ParseFormDataValue(cfg, req, n, "from");
      ReservedNames();
    }
    assert Get(MailOptions(cfg.Sender(), formData), "to") == Param(req.params, "_to") by {
      ParseRecipient(cfg, req, n);
      assert "to"[0] != "from"[0] && |"to"| != |"attachments"|;
      OptionsCarry(cfg.Sender(), formData, "to");
    }
    assert Get(MailOptions(cfg.Sender(), formData), "subject") == Param(req.params, "_subject") by {
      ParseFormDataValue(cfg, req, n, "subject");
      ReservedNames();
      assert "subject"[0] != "from"[0] && |"subject"| != |"attachments"|;
      OptionsCarry(cfg.Sender(), formData, "subject");
    }
  }

  /**
   * `sendMail(fields, {formData}).then(…).catch(…)`: fake mode answers with
   * the fake response and sends nothing; otherwise one options record is sent
   * and the provider's info is answered, or its error passed to `next`.
   */
  method SendAndRespond(cfg: Config, transport: Transport, fields: map<string, Value>, formData: map<string, Value>)
    returns (out: Outcome)
    modifies transport
    ensures Truthy(Get(fields, "fake")) ==>
      transport.outbox == old(transport.outbox) && out == Respond(fields, FakeResponse(formData))
    ensures var options := MailOptions(cfg.Sender(), formData);
      !Truthy(Get(fields, "fake")) ==>
        transport.outbox == old(transport.outbox) + [options] &&
        out == match transport.answer(options)
               case Ok(info) => Respond(fields, info)
               case Err(e) => Failed(SendFailed(e))
    ensures out != Failed(UnknownEmailAddress)
  {
    var r := SendMail(cfg, transport, fields, formData);
    match r
    case Ok(response) =>
      out := Respond(fields, response);
    case Err(error) =>
      out := Failed(SendFailed(error));
  }

  /**
   * `POST /:_to`. `parseRequest` always runs first (rendering and, outside
   * fake mode, opening the upload's stream); a recipient outside the
   * allow-list then ends the request with 'Unknown email address' and nothing
   * is sent; fake mode answers without touching the provider; otherwise one
   * options record is sent and the provider's answer decides the outcome.
   */
  method Post(cfg: Config, transport: Transport, fs: FileSystem, req: Req) returns (out: Outcome)
    modifies transport, fs
    ensures fs.openedPaths == old(fs.openedPaths) + (if OpensStream(req) then [req.upload.value.path] else [])
    ensures out == Failed(UnknownEmailAddress) <==> !Accepts(cfg.AllowList(), Param(req.params, "_to"))
    ensures !Accepts(cfg.AllowList(), Param(req.params, "_to")) ==> transport.outbox == old(transport.outbox)
    ensures var p := Parse(cfg, req, |old(fs.openedPaths)|);
      Accepts(cfg.AllowList(), Param(req.params, "_to")) && Truthy(Param(req.params, "_fake")) ==>
        transport.outbox == old(transport.outbox) && out == Respond(p.fields, FakeResponse(p.formData))
    ensures var p := Parse(cfg, req, |old(fs.openedPaths)|);
      var options := MailOptions(cfg.Sender(), p.formData);
      Accepts(cfg.AllowList(), Param(req.params, "_to")) && !Truthy(Param(req.params, "_fake")) ==>
        transport.outbox == old(transport.outbox) + [options] &&
        out == match transport.answer(options)
               case Ok(info) => Respond(p.fields, info)
               case Err(e) => Failed(SendFailed(e))
  {
    ghost var n := |fs.openedPaths|;
    var p := ParseRequest(cfg, fs, req);
    ParseFake(cfg, req, n);
    ParseRecipient(cfg, req, n);
    if IndexOf(cfg.AllowList(), Get(p.formData, "to")) < 0 {
      return Failed(UnknownEmailAddress);
    }
    out := SendAndRespond(cfg, transport, p.fields, p.formData);
  }
}
