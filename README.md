# contact — a Dafny model of the form-to-mail relay

The relay accepts a form post on `POST /:_to`, sorts the posted fields into
three groups, renders two message bodies, checks the recipient against an
allow-list and hands the message to a mail provider (nodemailer over Amazon
SES), answering with a redirect or with the provider's result as JSON.

The model covers the request logic of `index.js`:

- `values.dfy` (`Values`): the JavaScript values the relay handles, JavaScript
  truthiness, lodash `get`, and a request's parameters as an ordered object
  (a sequence of properties with distinct keys, in iteration order).
- `partition.dfy` (`Partition`): the field classifier of `parseRequest`.
  `pick` + `mapKeys(key.replace('_', ''))` of the control fields
  (`_from`, `_subject`, `_to`, `_attachment`) and of the private fields
  (`_fake`, `_info`, `_next`); `omit` + `omit` + `mapKeys(startCase)` + `map`
  of everything else into data rows. lodash `mapKeys` is modelled with
  JavaScript assignment order: a key already present keeps its position and
  takes the later value, a new key goes last.
- `setup.dfy` (`Setup`): what is read once at start-up. The `Config` record
  holds the `KNOWN_EMAILS` and `AWS_SES_MAIL_FROM` variables as the process
  found them; the allow-list is `KNOWN_EMAILS` split at its commas and the
  configured sender is `AWS_SES_MAIL_FROM` or `undefined`. `Config` also
  carries `startCase` and the two compiled templates as functions the relay
  calls but does not define.
- `request.dfy` (`Request`): `parseRequest` itself, as a method that builds
  `fields` and `formData` and updates them step by step, opening a read
  stream on the upload outside fake mode. It is proved against `Parse`, a
  function of the request, about which the lemmas state the keys and values
  of both objects.
- `dispatch.dfy` (`Dispatch`): `sendMail`, the fake response
  (`merge({message: 'fake response'}, {formData})`) and the options record
  `{from: AWS_SES_MAIL_FROM, attachments: [formData.attachment], ...formData}`;
  the provider is a `Transport` object that records every options record it is
  given and answers with a fixed function of it.
- `handler.dfy` (`Handler`): the allow-list guard (`indexOf(KNOWN_EMAILS,
  formData.to) < 0`), the choice between redirect and JSON, and the
  `POST /:_to` handler as a method over the file system and the transport.

Three consequences of `index.js` as written shape the model:

- A posted `_from` replaces the configured sender: the options record sets
  `from: AWS_SES_MAIL_FROM` and then spreads `formData`, whose `from` wins
  (index.js:133-136, `Handler.SenderAndRecipient`).
- `parseRequest` runs before the allow-list guard, so the templates are
  rendered and, outside fake mode, the upload's stream is opened even for a
  recipient that is then refused (index.js:60-62, `Handler.Post`).
- With `KNOWN_EMAILS` unset the list is `['']` (index.js:23), so a request
  whose `_to` is the empty string passes the guard; a request without `_to`
  does not, since `indexOf` compares strictly and `undefined` is not `''`
  (`Handler.UnsetAllowList`, `Handler.UnsetEnvironmentGuard`). With
  `AWS_SES_MAIL_FROM` unset the configured sender is `undefined`
  (index.js:26, `Setup.MailFrom`).

## Model

| member | source | states |
|---|---|---|
| `Values.Truthy` | index.js:68 | JavaScript truthiness: `undefined`, `null`, `false`, `0` and `''` are falsy, everything else truthy (also read at index.js:107, 109, 126) |
| `Values.Get` | index.js:67 | lodash `get` of one key of an object: the value, or `undefined` when the key is absent |
| `Values.Find` | index.js:81 | looking a key up in the request's ordered parameters finds a value exactly when the parameters have that key |
| `Values.Param` | index.js:81 | lodash `get` of one key of the request's parameters: the value, or `undefined` when absent (`Values.Find` states when it is present) |
| `Partition.StripMarker` | index.js:85 | `key.replace('_', '')` leaves a name without an underscore unchanged |
| `Partition.StripMarkerFirst` | index.js:85 | only the first underscore is removed: everything before it and everything after it is kept |
| `Partition.StripLeadingMarker` | index.js:85 | a name starting with the marker strips to its tail, and the marker put back gives the name again |
| `Partition.ReservedShape` | index.js:28-39 | every reserved field is the marker followed by a lower-case letter |
| `Partition.ReservedNames` | index.js:28-39 | the seven reserved fields strip to `from`, `subject`, `to`, `attachment`, `fake`, `info`, `next` |
| `Partition.ControlRoundTrip` | index.js:28-33 | stripping maps the control fields onto the control names and back |
| `Partition.PrivateRoundTrip` | index.js:35-39 | stripping maps the private fields onto the private names and back |
| `Partition.NamesDisjoint` | index.js:28-39 | no control name is a private name |
| `Partition.ReservedRenamingInjective` | index.js:28-39 | no two reserved fields collide once stripped |
| `Partition.ControlFieldsApart` | index.js:28-33 | the four control fields strip to four different names |
| `Partition.PrivateFieldsApart` | index.js:35-39 | the three private fields strip to three different names |
| `Partition.PickRenamed` | index.js:83-91 | `chain(body).pick(names).mapKeys(rename)`: the listed names in list order, each present one renamed and assigned in turn (its keys and values are stated by `Partition.PickRenamedSpec`) |
| `Partition.PickRenamedSpec` | index.js:83-91 | pick then rename holds the new name of exactly the listed names the request has, each with the request's value, and nothing else |
| `Partition.ControlPart` | index.js:83-86 | the first `formData`: `pick(FORM_FIELDS)` renamed by `key.replace('_', '')` (stated by `Partition.ControlPartSpec`) |
| `Partition.ControlPartSpec` | index.js:83-86 | `formData` starts with exactly the control names whose marked form the request has, values unchanged |
| `Partition.ControlPartNames` | index.js:83-86 | `formData` starts with control names only |
| `Partition.ControlValue` | index.js:83-86 | reading a control name from `formData` reads the request's marked field, present exactly when the request has it |
| `Partition.PrivatePart` | index.js:88-91 | the first `fields`: `pick(PRIVATE_FIELDS)` renamed by `key.replace('_', '')` (stated by `Partition.PrivatePartSpec`) |
| `Partition.PrivatePartSpec` | index.js:88-91 | `fields` starts with exactly the private names whose marked form the request has, values unchanged |
| `Partition.PrivateValue` | index.js:88-91 | reading a private name from `fields` reads the request's marked field |
| `Partition.Omit` | index.js:93-95 | `omit` keeps exactly the properties not named, never adds any, and keeps keys distinct |
| `Partition.OmitAppend` | index.js:93-95 | `omit` of two pieces is `omit` of each, in order: it keeps the request's order |
| `Partition.OmitOne` | index.js:93-95 | `omit` drops a single property exactly when its key is named |
| `Partition.Assign` | index.js:96 | an assignment keeps keys distinct, keeps every position, replaces the value of an existing key and appends a new one |
| `Partition.AssignKeys` | index.js:96 | after an assignment the object has the assigned key and every key it had, and no other |
| `Partition.AssignRows` | index.js:96 | every property after an assignment is the assigned one or an earlier one with another key |
| `Partition.MapKeys` | index.js:96 | `mapKeys` yields distinct keys and never more properties than it was given |
| `Partition.MapKeysSound` | index.js:96 | every mapped property carries the value of the last input property whose new key it has |
| `Partition.MapKeysComplete` | index.js:96 | every input property's new key is in the mapped object |
| `Partition.MapKeysInjective` | index.js:96 | when no two keys map to one new key, `mapKeys` keeps order and values and renames each key |
| `Partition.DataProps` | index.js:93-95 | `omit(PRIVATE_FIELDS).omit(FORM_FIELDS)`: the request's unreserved properties (stated by `Partition.DataRowsSpec` and `Partition.DataPropsAt`) |
| `Partition.DataRows` | index.js:93-100 | the data rows: the unreserved properties retitled by `startCase` with `mapKeys`, as `{key, value}` pairs |
| `Partition.DataRowsSpec` | index.js:93-100 | no data row comes from a reserved field, each row's value is that of an unreserved property whose title is the row's key, every unreserved property gives a row, and there are at most as many rows as unreserved properties |
| `Partition.NearMissesAreData` | index.js:93-95 | `to` and `_TO` are not reserved and become data rows |
| `Partition.DataPropsAppend` | index.js:93-95 | a property posted last is dropped when reserved and becomes the last data property otherwise |
| `Partition.DataPropsCount` | index.js:93-95 | there are exactly as many data properties as unreserved properties in the request |
| `Partition.DataPropsAt` | index.js:93-95 | the unreserved property at request position `i` is data property number "unreserved properties before `i`" |
| `Partition.DataCountGrows` | index.js:93-95 | an unreserved property earlier in the request gets a smaller data position than any later one |
| `Partition.DataRowsInOrder` | index.js:93-100 | when no two unreserved properties share a title, the unreserved property at request position `i` gives the row at its data position, with its title and value: rows follow the request's order |
| `Partition.PartitionExhaustive` | index.js:83-100 | every property is exactly one of a control field (in `formData`), a private field (in `fields`) or a data row's source, and the two renamed groups are disjoint |
| `Setup.Split` | index.js:23 | splitting yields at least one piece and no piece holds the separator |
| `Setup.SplitCount` | index.js:23 | there is one more piece than there are separators |
| `Setup.JoinSplit` | index.js:23 | the pieces joined back with the separator give the text again |
| `Setup.SplitPrefix` | index.js:23 | text starting with a separator-free piece splits into that piece glued to the rest's first piece |
| `Setup.SplitJoin` | index.js:23 | splitting undoes joining pieces that hold no separator |
| `Setup.KnownEmails` | index.js:23 | an unset variable gives `['']`, and no entry holds a comma |
| `Setup.KnownEmailsJoin` | index.js:23 | the entries joined with commas give the variable back |
| `Setup.MailFrom` | index.js:26 | the configured sender: the variable's text, or `undefined` when unset |
| `Setup.Config.AllowList` | index.js:23 | the allow-list is `KnownEmails` of the `KNOWN_EMAILS` variable the process started with |
| `Setup.Config.Sender` | index.js:26 | the configured sender is `MailFrom` of the `AWS_SES_MAIL_FROM` variable the process started with |
| `Request.FileSystem.CreateReadStream` | index.js:109 | opening a stream records its path and returns a new stream on that path |
| `Request.RowsValue` | index.js:97-99 | the data rows as the array of `{key, value}` objects set on `fields.data` |
| `Request.TemplateContext` | index.js:102 | `fields` with `data` set: the private part plus the rows |
| `Request.RenderedFormData` | index.js:103-104 | `formData` with `html` and `text` set to the two templates applied to the template context |
| `Request.AttachmentDescriptor` | index.js:111-117 | the attachment object: `{value, options: {filename, contentType}}` from the upload's name and type |
| `Request.OpensStream` | index.js:107-109 | a stream is opened exactly when a file was uploaded and `fields.fake` is falsy |
| `Request.Parse` | index.js:80-121 | the value `parseRequest` returns, given the number of the next stream to be opened (stated by the `Request.Parse*` lemmas) |
| `Request.FieldsFromPrivate` | index.js:88-91 | `fields` agrees with the private part on every name but `data` |
| `Request.ParseField` | index.js:88-91 | `fields.fake`, `fields.info` and `fields.next` are the request's `_fake`, `_info` and `_next` |
| `Request.ParseFake` | index.js:109 | fake mode is decided by the request's `_fake` |
| `Request.ParseNext` | index.js:67 | the redirect target is the request's `_next` |
| `Request.ParseFields` | index.js:102 | `fields` has exactly `data` and the private names the request has, and `data` is the rows |
| `Request.ParseFormDataKeys` | index.js:102-118 | `formData` has exactly `html`, `text`, the control names the request has, and `attachment` when a file was uploaded |
| `Request.NoAttachmentsProperty` | index.js:83-118 | `formData` never has an `attachments` property |
| `Request.FormDataFromControl` | index.js:103-118 | `formData` agrees with the control part on every name `parseRequest` does not set |
| `Request.ParseFormDataValue` | index.js:83-86 | `formData.from`, `.subject` and `.to` are the request's marked fields, present exactly when the request has them |
| `Request.ParseRecipient` | index.js:62 | the address the guard checks is the request's `_to` |
| `Request.ParseBodies` | index.js:102-104 | the two bodies are the two templates applied to `fields`, `data` included |
| `Request.ParseAttachment` | index.js:106-118 | without an upload `formData.attachment` is the posted `_attachment`; with one it is the descriptor of the file's path in fake mode and of a newly opened stream otherwise |
| `Request.ParseRequest` | index.js:80-121 | the method's result is `Parse` of the request, and it opens one stream exactly when a file was uploaded outside fake mode |
| `Dispatch.FakeResponse` | index.js:124-127 | the fake result has exactly `message: 'fake response'` and `formData`, unchanged |
| `Dispatch.MailOptions` | index.js:133-136 | the options have `formData`'s keys plus `from` and `attachments`; every `formData` property wins; `from` is the configured sender only when `formData` has none |
| `Dispatch.OptionsCarry` | index.js:133-136 | every other property of the options is `formData`'s own, present or absent alike |
| `Dispatch.Transport.constructor` | index.js:13-15 | the mailer starts with nothing sent and a fixed way of answering |
| `Dispatch.Transport.Send` | index.js:133-140 | a send records one options record and answers with the provider's reply to it |
| `Dispatch.SendMail` | index.js:123-142 | fake mode resolves with the fake response and sends nothing; otherwise exactly one options record is sent and the provider's answer is passed on unchanged |
| `Handler.IndexOf` | index.js:62 | the result is the first position holding a string strictly equal to the value, or -1 when there is none |
| `Handler.Accepts` | index.js:62 | the guard passes when `indexOf(KNOWN_EMAILS, formData.to)` is not negative (stated by `Handler.AcceptsExactly`) |
| `Handler.AcceptsExactly` | index.js:62 | the guard passes exactly when `to` is a string that is an entry of the list |
| `Handler.UnsetAllowList` | index.js:23 | with `KNOWN_EMAILS` unset only the empty address passes |
| `Handler.UnsetEnvironmentGuard` | index.js:23 | with `KNOWN_EMAILS` unset the handler's guard admits a request exactly when its `_to` is the empty string, and never one without `_to` |
| `Handler.ConfiguredAllowList` | index.js:23 | a variable listing comma-free addresses admits exactly those addresses |
| `Handler.CommaNeverAccepted` | index.js:23 | an address holding a comma never passes, whatever the variable says |
| `Handler.Respond` | index.js:67-72 | a redirect to `fields.next` exactly when it is truthy, JSON of the result otherwise |
| `Handler.RespondToNext` | index.js:67-72 | the answer depends on the request's `_next` alone |
| `Handler.SenderAndRecipient` | index.js:130-136 | the provider's sender is the posted `_from` when there is one and the configured sender otherwise; recipient and subject are the posted ones; `attachments` wraps `formData.attachment` |
| `Handler.SendAndRespond` | index.js:66-77 | fake mode sends nothing and answers with the fake response; otherwise one options record is sent and the provider's info is answered as `Respond` chooses, or its error ends the request; never the unknown-address failure |
| `Handler.Post` | index.js:59-78 | `parseRequest` always runs first; the request fails with 'Unknown email address' exactly when `_to` is not on the list, and then nothing is sent; fake mode sends nothing and answers with the fake response; otherwise one options record is sent and the provider's answer decides the outcome |

## Left out

- The restify server, CORS middleware, body parser, the `/status` route, `listen` and logging: HTTP plumbing with no request logic.
- Template loading (`fs.readFileSync`, `Handlebars.compile`) and rendering: the two compiled templates are functions in `Config`, applied to `fields`.
- lodash `startCase`: a function in `Config`, with no casing rules assumed.
- `fs.createReadStream`: a stream is known only by the order in which it was opened and its path; reading it, its errors and its release are not modelled.
- The network call to SES and the promise/callback wrapping, including the ignored second argument of `resolve`: the provider is a fixed function from options to a reply or an error.
- Reading the environment: the values of `KNOWN_EMAILS` and `AWS_SES_MAIL_FROM` are fields of `Config`, and `process.env` itself is not modelled; the start-up fault where `AWS_REGION` is read before its declaration, and the region itself, are not modelled.
- Whether the path segment or the body supplies `_to`: decided by the body parser; the request's parameters are taken as given.
- JavaScript's ordering of integer-like keys before other keys: parameters are in insertion order; `fields` and `formData` are unordered maps, so the key order of the JSON answer is not modelled.
- Numbers are integers: `NaN`, floating point and their truthiness are left out.
- lodash `omit` and `merge` deep-clone values; the model treats a clone as the same value.
- lodash `pick` also sees inherited properties; parameters are own properties only.
- An upload is present or absent (`files._attachment` truthy or not); its path is a string, so an upload without a path is not modelled.
- `res.redirect`, `res.json` and `next(error)` are modelled as the outcome value; the HTTP status codes they produce are not.
- Errors thrown by the templates or by the file system while building the message are not modelled.
