/**
 * `parseRequest`: classify the request's parameters, render the two message
 * bodies and attach an uploaded file, assembling the `fields` object (the
 * template context) and the `formData` object (the outgoing message).
 */
module Request {
  import opened Values
  import opened Partition
  import opened Setup

  /** The file the multipart parser stored for the `_attachment` upload. */
  datatype Upload = Upload(path: string, name: Value, contentType: Value)

  /** An incoming request: its `params` and, if one was sent, the uploaded file. */
  datatype Req = Req(params: Params, upload: Option<Upload>)

  /** What `parseRequest` returns. */
  datatype Parsed = Parsed(data: seq<Prop>, fields: map<string, Value>, formData: map<string, Value>)

  /** The read streams the process has opened. */
  class FileSystem {
    /** The path of every read stream opened so far, oldest first. */
    var openedPaths: seq<string>

    constructor ()
      ensures openedPaths == []
    {
      openedPaths := [];
    }

    /** `fs.createReadStream(path)`: the new stream is told apart by its position. */
    method CreateReadStream(path: string) returns (stream: Value)
      modifies this
      ensures openedPaths == old(openedPaths) + [path]
      ensures stream == Stream(|old(openedPaths)|, path)
    {
      stream := Stream(|openedPaths|, path);
      openedPaths := openedPaths + [path];
    }
  }

  /** The data rows as the JavaScript array of `{key, value}` objects. */
  function RowsValue(rows: seq<Prop>): Value {
    List(seq(|rows|, i requires 0 <= i < |rows| => Obj(map["key" := Str(rows[i].key), "value" := rows[i].value])))
  }

  /** `{value, options: {filename, contentType}}`, the attachment nodemailer is given. */
  function AttachmentDescriptor(value: Value, u: Upload): Value {
    Obj(map["value" := value, "options" := Obj(map["filename" := u.name, "contentType" := u.contentType])])
  }

  /** `fields` once the data rows are set on it: the templates' context. */
  function TemplateContext(cfg: Config, params: Params): map<string, Value> {
    PrivatePart(params)["data" := RowsValue(DataRows(params, cfg.titleCase))]
  }

  /** `formData` once the two rendered bodies are set on it. */
  function RenderedFormData(cfg: Config, params: Params): map<string, Value> {
    var fields := TemplateContext(cfg, params);
    ControlPart(params)["html" := Str(cfg.renderHtml(fields))]["text" := Str(cfg.renderText(fields))]
  }

  /**
   * The result of `parseRequest` when the next read stream opened is number
   * `nextStream`.
   */
  function Parse(cfg: Config, req: Req, nextStream: nat): Parsed {
    var fields := TemplateContext(cfg, req.params);
    var formData := RenderedFormData(cfg, req.params);
    match req.upload
    case None => Parsed(DataRows(req.params, cfg.titleCase), fields, formData)
    case Some(u) =>
      var value := if Truthy(Get(fields, "fake")) then Str(u.path) else Stream(nextStream, u.path);
      Parsed(DataRows(req.params, cfg.titleCase), fields, formData["attachment" := AttachmentDescriptor(value, u)])
  }

  /** The property names `parseRequest` sets are not control or private names. */
  lemma SetNamesDistinct()
    ensures forall c :: c in ControlNames + PrivateNames ==> c != "html" && c != "text" && c != "data"
    ensures "fake" != "data" && "html" != "text"
  {
    assert "from"[0] != "html"[0] && "from"[0] != "text"[0] && "from"[0] != "data"[0];
    assert "subject"[0] != "html"[0] && "subject"[0] != "text"[0] && "subject"[0] != "data"[0];
    assert "to"[1] != "html"[1] && "to"[1] != "text"[1] && "to"[0] != "data"[0];
    assert "attachment"[0] != "html"[0] && "attachment"[0] != "text"[0] && "attachment"[0] != "data"[0];
    assert "fake"[0] != "html"[0] && "fake"[0] != "text"[0] && "fake"[0] != "data"[0];
    assert "info"[0] != "html"[0] && "info"[0] != "text"[0] && "info"[0] != "data"[0];
    assert "next"[0] != "html"[0] && "next"[0] != "text"[0] && "next"[0] != "data"[0];
    assert "html"[0] != "text"[0];
  }

  /** Whether `parseRequest` opens a read stream: a file was uploaded and fake mode is off. */
  predicate OpensStream(req: Req) {
    req.upload.Some? && !Truthy(Param(req.params, "_fake"))
  }

  /** `fields` agrees with the private part on every name but `data`. */
  lemma FieldsFromPrivate(cfg: Config, req: Req, n: nat, k: string)
    requires k != "data"
    ensures Get(Parse(cfg, req, n).fields, k) == Get(PrivatePart(req.params), k)
  {
  }

  /**
   * Reading `fields.fake`, `fields.info` or `fields.next` reads the request's
   * `_fake`, `_info` or `_next`.
   */
  lemma ParseField(cfg: Config, req: Req, n: nat, c: string)
    requires c in PrivateNames
    ensures Get(Parse(cfg, req, n).fields, c) == Param(req.params, "_" + c)
  {
    SetNamesDistinct();
    FieldsFromPrivate(cfg, req, n, c);
    PrivateValue(req.params, c);
  }

  /** Fake mode is decided by the request's `_fake`. */
  lemma ParseFake(cfg: Config, req: Req, n: nat)
    ensures Get(Parse(cfg, req, n).fields, "fake") == Param(req.params, "_fake")
  {
    ParseField(cfg, req, n, "fake");
    ReservedNames();
  }

  /** The redirect target is the request's `_next`. */
  lemma ParseNext(cfg: Config, req: Req, n: nat)
    ensures Get(Parse(cfg, req, n).fields, "next") == Param(req.params, "_next")
  {
    ParseField(cfg, req, n, "next");
    ReservedNames();
  }

  /**
   * `fields` is the private fields under their stripped names, each holding
   * the request's value, plus `data`, the rows; a private field the request
   * lacks is absent.
   */
  lemma ParseFields(cfg: Config, req: Req, n: nat)
    ensures var fields := Parse(cfg, req, n).fields;
      && fields.Keys == {"data"} + (set c | c in PrivateNames && Has(req.params, "_" + c))
      && fields["data"] == RowsValue(DataRows(req.params, cfg.titleCase))
  {
    assert PrivatePart(req.params).Keys == set c | c in PrivateNames && Has(req.params, "_" + c) by {
      PrivatePartSpec(req.params);
    }
  }

  /**
   * `formData` holds the control fields the request has, under their stripped
   * names, the two rendered bodies, and an attachment whenever a file was
   * uploaded.
   */
  lemma ParseFormDataKeys(cfg: Config, req: Req, n: nat)
    ensures Parse(cfg, req, n).formData.Keys ==
      {"html", "text"} + (set c | c in ControlNames && Has(req.params, "_" + c)) +
      (if req.upload.Some? then {"attachment"} else {})
  {
    assert ControlPart(req.params).Keys == set c | c in ControlNames && Has(req.params, "_" + c) by {
      ControlPartSpec(req.params);
    }
  }

  /** `formData` has no property named `attachments`. */
  lemma NoAttachmentsProperty(cfg: Config, req: Req, n: nat)
    ensures "attachments" !in Parse(cfg, req, n).formData
  {
    assert "attachments" !in ControlPart(req.params) by {
      ControlPartNames(req.params);
      assert |"attachments"| == 11;
    }
    assert |"attachments"| != |"html"| && |"attachments"| != |"attachment"|;
    FormDataFromControl(cfg, req, n, "attachments");
  }

  /** `formData` agrees with the control part on every name `parseRequest` does not set. */
  lemma FormDataFromControl(cfg: Config, req: Req, n: nat, k: string)
    requires k != "html" && k != "text" && k != "attachment"
    ensures k in Parse(cfg, req, n).formData <==> k in ControlPart(req.params)
    ensures Get(Parse(cfg, req, n).formData, k) == Get(ControlPart(req.params), k)
  {
  }

  /**
   * The sender, subject and recipient in `formData` are the request's
   * `_from`, `_subject` and `_to`, unchanged, and present exactly when the
   * request has them.
   */
  lemma ParseFormDataValue(cfg: Config, req: Req, n: nat, c: string)
    requires c in ControlNames && c != "attachment"
    ensures c in Parse(cfg, req, n).formData <==> Has(req.params, "_" + c)
    ensures Get(Parse(cfg, req, n).formData, c) == Param(req.params, "_" + c)
  {
    SetNamesDistinct();
    FormDataFromControl(cfg, req, n, c);
    ControlValue(req.params, c);
  }

  /** The address the guard checks is the request's `_to`. */
  lemma ParseRecipient(cfg: Config, req: Req, n: nat)
    ensures Get(Parse(cfg, req, n).formData, "to") == Param(req.params, "_to")
  {
    ParseFormDataValue(cfg, req, n, "to");
    ReservedNames();
  }

  /** The two bodies in `formData` are the two templates applied to `fields`. */
  lemma ParseBodies(cfg: Config, req: Req, n: nat)
    ensures var p := Parse(cfg, req, n);
      && p.formData["html"] == Str(cfg.renderHtml(p.fields))
      && p.formData["text"] == Str(cfg.renderText(p.fields))
  {
    assert "html"[0] != "text"[0] && "html"[0] != "attachment"[0] && "text"[0] != "attachment"[0];
  }

  /**
   * Without an upload `formData.attachment` is whatever the `_attachment`
   * field held; an upload replaces it by a descriptor holding the file's path
   * in fake mode and a newly opened stream otherwise.
   */
  lemma ParseAttachment(cfg: Config, req: Req, n: nat)
    ensures var p := Parse(cfg, req, n);
      && (req.upload.None? ==> Get(p.formData, "attachment") == Param(req.params, "_attachment"))
      && (req.upload.Some? ==> p.formData["attachment"] == AttachmentDescriptor(
            if OpensStream(req) then Stream(n, req.upload.value.path) else Str(req.upload.value.path),
            req.upload.value))
  {
    var p := Parse(cfg, req, n);
    if req.upload.None? {
      assert "attachment"[0] != "html"[0] && "attachment"[0] != "text"[0];
      assert Get(p.formData, "attachment") == Get(ControlPart(req.params), "attachment");
      ControlValue(req.params, "attachment");
      ReservedNames();
    } else {
      ParseFake(cfg, req, n);
    }
  }

  /**
   * `parseRequest(req)`: builds `formData` and `fields` and then updates them
   * in place, opening a read stream on the upload outside fake mode.
   */
  method ParseRequest(cfg: Config, fs: FileSystem, req: Req) returns (p: Parsed)
    modifies fs
    ensures p == Parse(cfg, req, |old(fs.openedPaths)|)
    ensures fs.openedPaths == old(fs.openedPaths) + (if OpensStream(req) then [req.upload.value.path] else [])
  {
    ParseFake(cfg, req, |fs.openedPaths|);
    var body := req.params;
    var formData := ControlPart(body);
    var fields := PrivatePart(body);
    var data := DataRows(body, cfg.titleCase);
    fields := fields["data" := RowsValue(data)];
    formData := formData["html" := Str(cfg.renderHtml(fields))];
    formData := formData["text" := Str(cfg.renderText(fields))];
    if req.upload.Some? {
      var upload := req.upload.value;
      var value;
      if Truthy(Get(fields, "fake")) {
        value := Str(upload.path);
      } else {
        value := fs.CreateReadStream(upload.path);
      }
      formData := formData["attachment" := AttachmentDescriptor(value, upload)];
    }
    p := Parsed(data, fields, formData);
  }
}
