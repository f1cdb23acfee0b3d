/**
 * The configuration the relay reads once at start-up: the allow-list of
 * recipients, the configured sender, and the collaborators it calls but does
 * not define (lodash's `startCase` and the two compiled Handlebars templates).
 */
module Setup {
  import opened Values

  /** How many times `c` occurs in `s`. */
  function Occurrences(s: string, c: char): nat {
    if s == [] then 0 else (if s[0] == c then 1 else 0) + Occurrences(s[1..], c)
  }

  /** `s.split(sep)` for a one-character separator: at least one piece, none holding a separator. */
  function Split(s: string, sep: char): (parts: seq<string>)
    ensures |parts| >= 1
    ensures forall i :: 0 <= i < |parts| ==> sep !in parts[i]
  {
    if s == [] then [""]
    else
      var rest := Split(s[1..], sep);
      if s[0] == sep then [""] + rest
      else [[s[0]] + rest[0]] + rest[1..]
  }

  /** There is one more piece than there are separators. */
  lemma {:induction false} SplitCount(s: string, sep: char)
    ensures |Split(s, sep)| == 1 + Occurrences(s, sep)
  {
    if s != [] {
      SplitCount(s[1..], sep);
    }
  }

  /** Joined back with the separator, the pieces give the text again. */
  lemma {:induction false} JoinSplit(s: string, sep: char)
    ensures Join(Split(s, sep), sep) == s
  {
    if s != [] {
      JoinSplit(s[1..], sep);
      var rest := Split(s[1..], sep);
      if s[0] == sep {
        assert s == [sep] + s[1..];
        assert Join([""] + rest, sep) == "" + [sep] + Join(rest, sep);
      } else {
        assert s == [s[0]] + s[1..];
        var parts := [[s[0]] + rest[0]] + rest[1..];
        if |rest| == 1 {
          assert Join(parts, sep) == [s[0]] + rest[0];
        } else {
          assert parts[1..] == rest[1..];
          assert Join(rest, sep) == rest[0] + [sep] + Join(rest[1..], sep);
          assert Join(parts, sep) == [s[0]] + rest[0] + [sep] + Join(rest[1..], sep);
        }
      }
    }
  }

  /** `parts.join(sep)`. */
  function Join(parts: seq<string>, sep: char): string {
    if parts == [] then ""
    else if |parts| == 1 then parts[0]
    else parts[0] + [sep] + Join(parts[1..], sep)
  }

  /** Splitting text that starts with a separator-free piece yields that piece first. */
  lemma {:induction false} SplitPrefix(p: string, tail: string, sep: char)
    requires sep !in p
    ensures Split(p + tail, sep) == [p + Split(tail, sep)[0]] + Split(tail, sep)[1..]
  {
    if p != [] {
      SplitPrefix(p[1..], tail, sep);
      var t := Split(tail, sep);
      assert (p + tail)[0] == p[0] != sep;
      assert (p + tail)[1..] == p[1..] + tail;
      assert [p[0]] + (p[1..] + t[0]) == p + t[0];
    } else {
      var parts := Split(tail, sep);
      assert p + tail == tail && p + parts[0] == parts[0];
      assert parts == [parts[0]] + parts[1..];
    }
  }

  /** Text that starts with a separator splits into an empty piece and the rest's pieces. */
  lemma SplitLeadingSeparator(rest: string, sep: char)
    ensures Split([sep] + rest, sep) == [""] + Split(rest, sep)
  {
    assert ([sep] + rest)[1..] == rest;
  }

  /** Splitting undoes joining pieces that hold no separator. */
  lemma {:induction false} SplitJoin(parts: seq<string>, sep: char)
    requires |parts| >= 1
    requires forall i :: 0 <= i < |parts| ==> sep !in parts[i]
    ensures Split(Join(parts, sep), sep) == parts
  {
    if |parts| == 1 {
      SplitPrefix(parts[0], "", sep);
      assert parts[0] + "" == parts[0];
    } else {
      var rest := Join(parts[1..], sep);
      SplitJoin(parts[1..], sep);
      SplitLeadingSeparator(rest, sep);
      SplitPrefix(parts[0], [sep] + rest, sep);
      calc {
        Split(Join(parts, sep), sep);
        { assert Join(parts, sep) == parts[0] + ([sep] + rest); }
        Split(parts[0] + ([sep] + rest), sep);
        [parts[0] + ""] + parts[1..];
        { assert parts[0] + "" == parts[0]; }
        parts;
      }
    }
  }

  /**
   * `(process.env.KNOWN_EMAILS || '').split(',')`: an unset or empty variable
   * gives the one-element list holding the empty string.
   */
  function KnownEmails(variable: Option<string>): (emails: seq<string>)
    ensures variable.None? ==> emails == [""]
    ensures forall i :: 0 <= i < |emails| ==> ',' !in emails[i]
  {
    Split(if variable.Some? then variable.value else "", ',')
  }

  /** The list is the variable cut at its commas: joined back, it is the variable. */
  lemma KnownEmailsJoin(value: string)
    ensures Join(KnownEmails(Some(value)), ',') == value
  {
    JoinSplit(value, ',');
  }

  /** `process.env.AWS_SES_MAIL_FROM`: `undefined` when unset. */
  function MailFrom(variable: Option<string>): Value {
    if variable.Some? then Str(variable.value) else Undefined
  }

  /**
   * What the relay fixes at start-up: the two environment variables as the
   * process found them (`None` when unset), lodash's `startCase` as
   * `titleCase`, and the compiled templates `renderHtml` and `renderText`,
   * applied to the `fields` object.
   */
  datatype Config = Config(
    knownEmailsEnv: Option<string>,
    mailFromEnv: Option<string>,
    titleCase: string -> string,
    renderHtml: map<string, Value> -> string,
    renderText: map<string, Value> -> string)
  {
    /** `KNOWN_EMAILS`, the allow-list read from the environment. */
    function AllowList(): seq<string> {
      KnownEmails(knownEmailsEnv)
    }

    /** `AWS_SES_MAIL_FROM`, the configured sender. */
    function Sender(): Value {
      MailFrom(mailFromEnv)
    }
  }
}
