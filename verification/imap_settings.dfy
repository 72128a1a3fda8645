/** The IMAP/SMTP settings form of the onboarding wizard: the validator run
    before the account is connected, and the rule that decides which inputs
    the form draws with the `error` class. */
module ImapSettings {
  import opened Js

  /** The two columns of the form, processed in this order. */
  datatype Protocol = Imap | Smtp

  /** A port as held in the account info: an integer (`Number.isInteger`
      holds) or anything else — text typed into the form, a fraction, no value. */
  datatype PortValue = IntegerPort(number: int) | NonIntegerPort

  /** The four settings of one protocol column. */
  datatype ServerSettings = ServerSettings(
    host: Option<string>,
    port: PortValue,
    username: Option<string>,
    password: Option<string>)

  /** The account info the form edits, one record per protocol column. */
  datatype AccountInfo = AccountInfo(imapSettings: ServerSettings, smtpSettings: ServerSettings, sslRequired: bool)

  function Settings(info: AccountInfo, p: Protocol): ServerSettings {
    match p
    case Imap => info.imapSettings
    case Smtp => info.smtpSettings
  }

  datatype FieldKind = Host | Port | Username | Password

  /** The name of an input of the form: `<protocol>_<kind>`, or the shared
      `ssl_required` checkbox. */
  datatype FieldName = Field(protocol: Protocol, kind: FieldKind) | SslRequired

  /** The key of the field in the account info, also the element id of its input. */
  function FieldKey(f: FieldName): string {
    match f
    case Field(Imap, Host) => "imap_host"
    case Field(Imap, Port) => "imap_port"
    case Field(Imap, Username) => "imap_username"
    case Field(Imap, Password) => "imap_password"
    case Field(Smtp, Host) => "smtp_host"
    case Field(Smtp, Port) => "smtp_port"
    case Field(Smtp, Username) => "smtp_username"
    case Field(Smtp, Password) => "smtp_password"
    case SslRequired => "ssl_required"
  }

  /** Reading a key back into a field name (the inverse of FieldKey). */
  function FieldOfKey(key: string): Option<FieldName> {
    if key == "imap_host" then Some(Field(Imap, Host))
    else if key == "imap_port" then Some(Field(Imap, Port))
    else if key == "imap_username" then Some(Field(Imap, Username))
    else if key == "imap_password" then Some(Field(Imap, Password))
    else if key == "smtp_host" then Some(Field(Smtp, Host))
    else if key == "smtp_port" then Some(Field(Smtp, Port))
    else if key == "smtp_username" then Some(Field(Smtp, Username))
    else if key == "smtp_password" then Some(Field(Smtp, Password))
    else if key == "ssl_required" then Some(SslRequired)
    else None
  }

  /** Every field has its own key: reading the key back gives the field. */
  lemma FieldKeyRoundTrip(f: FieldName)
    ensures FieldOfKey(FieldKey(f)) == Some(f)
  {
  }

  /** The one host the form refuses by name: Gmail's IMAP server. */
  const GmailImapHost := "imap.gmail.com"

  const InvalidHostMessage := "Please provide a valid hostname or IP adddress."
  const GmailMessage := "Please link Gmail accounts by choosing 'Google' on the account type screen."
  const InvalidPortMessage := "Please provide a valid port number."

  /** Host, username and password are all truthy: the column may be validated. */
  predicate RequiredPresent(s: ServerSettings) {
    Truthy(s.host) && Truthy(s.username) && Truthy(s.password)
  }

  /** The outcome of the validator. Field names are a list in the order they
      were flagged; a host can be flagged twice. */
  datatype Validation = Validation(errorMessage: Option<string>, errorFieldNames: seq<FieldName>, populated: bool)

  /** The message and field names accumulated so far. */
  datatype Errors = Errors(message: Option<string>, fieldNames: seq<FieldName>)

  /** The message the check that flags `f` sets: a flagged host carries the
      Gmail message when it is Gmail's server (that check runs second), the
      invalid-host message otherwise; a flagged port the invalid-port message. */
  function MessageFor(info: AccountInfo, f: FieldName): string {
    match f
    case Field(p, Host) =>
      if Settings(info, p).host == Some(GmailImapHost) then GmailMessage else InvalidHostMessage
    case Field(_, Port) => InvalidPortMessage
    case _ => ""
  }

  /** The pairing of message and field names the validator keeps: no message
      exactly when no field is flagged, and otherwise the message of the check
      that flagged the last field. */
  predicate MessageMatchesFields(info: AccountInfo, message: Option<string>, names: seq<FieldName>) {
    && (message.None? <==> |names| == 0)
    && (|names| > 0 ==> message == Some(MessageFor(info, names[|names| - 1])))
  }

  /** One check: when it fails, append `f` and overwrite the message. */
  function Flag(acc: Errors, failed: bool, f: FieldName, message: string): Errors {
    if failed then Errors(Some(message), acc.fieldNames + [f]) else acc
  }

  /** The three checks of one column whose required fields are present:
      host syntax, the Gmail host, the port. Each failing check appends its
      field and overwrites the message. */
  function CheckServer(info: AccountInfo, p: Protocol, validServer: string -> bool, acc: Errors): (r: Errors)
    requires RequiredPresent(Settings(info, p))
    ensures acc.fieldNames <= r.fieldNames
    ensures |r.fieldNames| <= |acc.fieldNames| + 3
    ensures forall i :: |acc.fieldNames| <= i < |r.fieldNames| ==>
              r.fieldNames[i] == Field(p, Host) || r.fieldNames[i] == Field(p, Port)
    ensures |r.fieldNames| == |acc.fieldNames| ==> r.message == acc.message
    ensures |r.fieldNames| > |acc.fieldNames| ==>
              r.message == Some(MessageFor(info, r.fieldNames[|r.fieldNames| - 1]))
  {
    var s := Settings(info, p);
    var host := s.host.value;
    var afterSyntax := Flag(acc, !validServer(host), Field(p, Host), InvalidHostMessage);
    var afterGmail := Flag(afterSyntax, host == GmailImapHost, Field(p, Host), GmailMessage);
    Flag(afterGmail, s.port.NonIntegerPort?, Field(p, Port), InvalidPortMessage)
  }

  /** Which fields the checks of one complete column flag: its host exactly
      when the host fails the server test or is Gmail's, its port exactly
      when the port is not an integer. */
  lemma CheckServerFlags(info: AccountInfo, p: Protocol, validServer: string -> bool, acc: Errors)
    requires RequiredPresent(Settings(info, p))
    ensures var r := CheckServer(info, p, validServer, acc);
            var host := Settings(info, p).host.value;
            && (Field(p, Host) in r.fieldNames[|acc.fieldNames|..] <==> !validServer(host) || host == GmailImapHost)
            && (Field(p, Port) in r.fieldNames[|acc.fieldNames|..] <==> Settings(info, p).port.NonIntegerPort?)
            && (Settings(info, p).port.NonIntegerPort? ==> r.fieldNames[|r.fieldNames| - 1] == Field(p, Port))
  {
    var s := Settings(info, p);
    var host := s.host.value;
    var start := |acc.fieldNames|;
    var afterSyntax := Flag(acc, !validServer(host), Field(p, Host), InvalidHostMessage);
    var afterGmail := Flag(afterSyntax, host == GmailImapHost, Field(p, Host), GmailMessage);
    var r := Flag(afterGmail, s.port.NonIntegerPort?, Field(p, Port), InvalidPortMessage);
    var hostFlags := (if !validServer(host) then [Field(p, Host)] else []) + (if host == GmailImapHost then [Field(p, Host)] else []);
    var portFlags := if s.port.NonIntegerPort? then [Field(p, Port)] else [];
    assert r.fieldNames[start..] == hostFlags + portFlags;
    assert Field(p, Host) in hostFlags <==> !validServer(host) || host == GmailImapHost;
    assert Field(p, Port) !in hostFlags && Field(p, Host) !in portFlags;
  }

  /** The host syntax check and the Gmail check push the host independently:
      a column's host is listed once for each of the two it fails, so twice
      when it fails both. */
  lemma HostFlagCount(info: AccountInfo, p: Protocol, validServer: string -> bool, acc: Errors)
    requires RequiredPresent(Settings(info, p))
    ensures var r := CheckServer(info, p, validServer, acc);
            var host := Settings(info, p).host.value;
            multiset(r.fieldNames[|acc.fieldNames|..])[Field(p, Host)] ==
              (if !validServer(host) then 1 else 0) + (if host == GmailImapHost then 1 else 0)
  {
    var s := Settings(info, p);
    var host := s.host.value;
    var start := |acc.fieldNames|;
    var afterSyntax := Flag(acc, !validServer(host), Field(p, Host), InvalidHostMessage);
    var afterGmail := Flag(afterSyntax, host == GmailImapHost, Field(p, Host), GmailMessage);
    var r := Flag(afterGmail, s.port.NonIntegerPort?, Field(p, Port), InvalidPortMessage);
    var syntaxFlags := if !validServer(host) then [Field(p, Host)] else [];
    var gmailFlags := if host == GmailImapHost then [Field(p, Host)] else [];
    var portFlags := if s.port.NonIntegerPort? then [Field(p, Port)] else [];
    assert r.fieldNames[start..] == syntaxFlags + gmailFlags + portFlags;
    assert multiset(portFlags)[Field(p, Host)] == 0;
  }

  /** The validator's loop over the remaining protocol columns `types`:
      stop with `populated` false at the first column missing a required
      field, keeping what was accumulated; otherwise check it and go on. */
  function ValidateFrom(types: seq<Protocol>, info: AccountInfo, validServer: string -> bool, acc: Errors): (r: Validation)
    ensures acc.fieldNames <= r.errorFieldNames
    ensures |r.errorFieldNames| <= |acc.fieldNames| + 3 * |types|
    ensures r.populated <==> forall i :: 0 <= i < |types| ==> RequiredPresent(Settings(info, types[i]))
    decreases |types|
  {
    if |types| == 0 then Validation(acc.message, acc.fieldNames, true)
    else if !RequiredPresent(Settings(info, types[0])) then Validation(acc.message, acc.fieldNames, false)
    else ValidateFrom(types[1..], info, validServer, CheckServer(info, types[0], validServer, acc))
  }

  /** `validateAccountInfo`: validate the IMAP column, then the SMTP column.
      `validServer` stands for the domain-name-or-IP-address test. */
  function ValidateAccountInfo(info: AccountInfo, validServer: string -> bool): (r: Validation)
    ensures !RequiredPresent(info.imapSettings) ==> r == Validation(None, [], false)
    ensures r.populated <==> RequiredPresent(info.imapSettings) && RequiredPresent(info.smtpSettings)
    ensures |r.errorFieldNames| <= 6
    ensures forall f :: f in r.errorFieldNames ==> f.Field? && (f.kind == Host || f.kind == Port)
    ensures r.errorMessage.None? <==> |r.errorFieldNames| == 0
    ensures |r.errorFieldNames| > 0 ==>
              r.errorMessage == Some(MessageFor(info, r.errorFieldNames[|r.errorFieldNames| - 1]))
  {
    var r := ValidateFrom([Imap, Smtp], info, validServer, Errors(None, []));
    ValidateFromFlagsCheckedColumns([Imap, Smtp], info, validServer, Errors(None, []));
    ValidateFromKeepsMessagePairing([Imap, Smtp], info, validServer, Errors(None, []));
    r
  }

  /** Every field the loop adds is the host or port of a column it reached,
      and a column is only reached when its required fields are present. */
  lemma {:induction false} ValidateFromFlagsCheckedColumns(
    types: seq<Protocol>, info: AccountInfo, validServer: string -> bool, acc: Errors)
    ensures var r := ValidateFrom(types, info, validServer, acc);
            forall i :: |acc.fieldNames| <= i < |r.errorFieldNames| ==>
              var f := r.errorFieldNames[i];
              && f.Field? && (f.kind == Host || f.kind == Port)
              && f.protocol in types
              && RequiredPresent(Settings(info, f.protocol))
    decreases |types|
  {
    if |types| > 0 && RequiredPresent(Settings(info, types[0])) {
      var next := CheckServer(info, types[0], validServer, acc);
      ValidateFromFlagsCheckedColumns(types[1..], info, validServer, next);
      var r := ValidateFrom(types, info, validServer, acc);
      assert r == ValidateFrom(types[1..], info, validServer, next);
      forall i | |acc.fieldNames| <= i < |r.errorFieldNames|
        ensures var f := r.errorFieldNames[i];
                && f.Field? && (f.kind == Host || f.kind == Port)
                && f.protocol in types
                && RequiredPresent(Settings(info, f.protocol))
      {
        if i < |next.fieldNames| {
          assert r.errorFieldNames[i] == next.fieldNames[i];
        } else {
          assert r.errorFieldNames[i].Field? && r.errorFieldNames[i].protocol in types[1..];
        }
      }
    }
  }

  /** The loop keeps the pairing of message and field names: when it holds
      of what was accumulated before, it holds of the result. */
  lemma {:induction false} ValidateFromKeepsMessagePairing(
    types: seq<Protocol>, info: AccountInfo, validServer: string -> bool, acc: Errors)
    requires MessageMatchesFields(info, acc.message, acc.fieldNames)
    ensures var r := ValidateFrom(types, info, validServer, acc);
            MessageMatchesFields(info, r.errorMessage, r.errorFieldNames)
    decreases |types|
  {
    if |types| > 0 && RequiredPresent(Settings(info, types[0])) {
      var next := CheckServer(info, types[0], validServer, acc);
      ValidateFromKeepsMessagePairing(types[1..], info, validServer, next);
    }
  }

  /** Column `p` is reached by the validator: every column before it, and
      itself, has its required fields. */
  predicate ColumnReached(info: AccountInfo, p: Protocol) {
    RequiredPresent(info.imapSettings) && (p == Smtp ==> RequiredPresent(info.smtpSettings))
  }

  /** The validator unrolled over its two columns. */
  lemma ValidateAccountInfoUnrolled(info: AccountInfo, validServer: string -> bool)
    requires RequiredPresent(info.imapSettings)
    ensures var afterImap := CheckServer(info, Imap, validServer, Errors(None, []));
            var r := ValidateAccountInfo(info, validServer);
            && (!RequiredPresent(info.smtpSettings) ==>
                  r == Validation(afterImap.message, afterImap.fieldNames, false))
            && (RequiredPresent(info.smtpSettings) ==>
                  var afterSmtp := CheckServer(info, Smtp, validServer, afterImap);
                  r == Validation(afterSmtp.message, afterSmtp.fieldNames, true))
  {
    var afterImap := CheckServer(info, Imap, validServer, Errors(None, []));
    assert [Imap, Smtp][1..] == [Smtp];
    if RequiredPresent(info.smtpSettings) {
      var afterSmtp := CheckServer(info, Smtp, validServer, afterImap);
      assert [Smtp][1..] == [];
      assert ValidateFrom([Smtp], info, validServer, afterImap) == ValidateFrom([], info, validServer, afterSmtp);
    }
  }

  /** Every flagged field belongs to a column the validator reached. */
  lemma FlaggedColumnsWereReached(info: AccountInfo, validServer: string -> bool)
    ensures var r := ValidateAccountInfo(info, validServer);
            forall f :: f in r.errorFieldNames ==> f.Field? && ColumnReached(info, f.protocol)
  {
    var r := ValidateAccountInfo(info, validServer);
    if RequiredPresent(info.imapSettings) {
      ValidateFromFlagsCheckedColumns([Imap, Smtp], info, validServer, Errors(None, []));
      forall f | f in r.errorFieldNames
        ensures f.Field? && ColumnReached(info, f.protocol)
      {
        var i :| 0 <= i < |r.errorFieldNames| && r.errorFieldNames[i] == f;
      }
    }
  }

  /** When the IMAP column is complete but the SMTP column is not, the result
      is not populated and still carries everything the IMAP checks flagged:
      the IMAP errors are kept, not discarded. */
  lemma SmtpMissingKeepsImapErrors(info: AccountInfo, validServer: string -> bool)
    requires RequiredPresent(info.imapSettings) && !RequiredPresent(info.smtpSettings)
    ensures var r := ValidateAccountInfo(info, validServer);
            var host := info.imapSettings.host.value;
            && !r.populated
            && (forall f :: f in r.errorFieldNames ==> f.Field? && f.protocol == Imap)
            && (Field(Imap, Host) in r.errorFieldNames <==> !validServer(host) || host == GmailImapHost)
            && (Field(Imap, Port) in r.errorFieldNames <==> info.imapSettings.port.NonIntegerPort?)
  {
    ValidateAccountInfoUnrolled(info, validServer);
    CheckServerFlags(info, Imap, validServer, Errors(None, []));
    var afterImap := CheckServer(info, Imap, validServer, Errors(None, []));
    assert afterImap.fieldNames[0..] == afterImap.fieldNames;
  }

  /** A reached column whose host is Gmail's IMAP server has its host flagged,
      whichever column it is; when its port is an integer and no later column
      flagged anything, the Gmail message is the final one. */
  lemma GmailHostFlagged(info: AccountInfo, validServer: string -> bool, p: Protocol)
    requires ColumnReached(info, p) && Settings(info, p).host == Some(GmailImapHost)
    ensures var r := ValidateAccountInfo(info, validServer);
            && Field(p, Host) in r.errorFieldNames
            && (Settings(info, p).port.IntegerPort? && r.errorFieldNames[|r.errorFieldNames| - 1].protocol == p ==>
                  r.errorMessage == Some(GmailMessage))
            && (p == Smtp && info.smtpSettings.port.IntegerPort? ==> r.errorMessage == Some(GmailMessage))
  {
    ValidateAccountInfoUnrolled(info, validServer);
    var r := ValidateAccountInfo(info, validServer);
    var afterImap := CheckServer(info, Imap, validServer, Errors(None, []));
    if p == Smtp {
      CheckServerFlags(info, Smtp, validServer, afterImap);
      var afterSmtp := CheckServer(info, Smtp, validServer, afterImap);
      assert Field(Smtp, Host) in afterSmtp.fieldNames[|afterImap.fieldNames|..];
    } else {
      CheckServerFlags(info, Imap, validServer, Errors(None, []));
      assert Field(Imap, Host) in afterImap.fieldNames[0..];
      assert afterImap.fieldNames <= r.errorFieldNames;
    }
    FlaggedColumnsWereReached(info, validServer);
    assert r.errorFieldNames[|r.errorFieldNames| - 1] in r.errorFieldNames;
  }

  /** A reached column with a non-integer port has its port flagged; when it
      is the last column that flagged anything, the message is the port message. */
  lemma NonIntegerPortFlagged(info: AccountInfo, validServer: string -> bool, p: Protocol)
    requires ColumnReached(info, p) && Settings(info, p).port.NonIntegerPort?
    ensures var r := ValidateAccountInfo(info, validServer);
            && Field(p, Port) in r.errorFieldNames
            && (r.errorFieldNames[|r.errorFieldNames| - 1].protocol == p ==> r.errorMessage == Some(InvalidPortMessage))
  {
    ValidateAccountInfoUnrolled(info, validServer);
    var r := ValidateAccountInfo(info, validServer);
    var none := Errors(None, []);
    var afterImap := CheckServer(info, Imap, validServer, none);
    if p == Smtp {
      CheckServerFlags(info, Smtp, validServer, afterImap);
    } else {
      CheckServerFlags(info, Imap, validServer, none);
      assert afterImap.fieldNames[0..] == afterImap.fieldNames;
      if |r.errorFieldNames| > |afterImap.fieldNames| {
        ColumnFlagsItsOwnFields(info, Smtp, validServer, afterImap);
      }
    }
  }

  /** No IMAP field follows an SMTP field in `names`. */
  predicate ImapBeforeSmtp(names: seq<FieldName>) {
    forall i, j :: 0 <= i < j < |names| && names[i].Field? && names[i].protocol == Smtp ==>
      names[j].Field? && names[j].protocol == Smtp
  }

  /** The fields one column's checks add all belong to that column. */
  lemma ColumnFlagsItsOwnFields(info: AccountInfo, p: Protocol, validServer: string -> bool, acc: Errors)
    requires RequiredPresent(Settings(info, p))
    ensures var r := CheckServer(info, p, validServer, acc);
            forall i :: |acc.fieldNames| <= i < |r.fieldNames| ==> r.fieldNames[i].Field? && r.fieldNames[i].protocol == p
  {
  }

  /** A list made of IMAP fields up to `k` and SMTP fields from `k` on. */
  lemma SplitListIsOrdered(names: seq<FieldName>, k: nat)
    requires k <= |names|
    requires forall i :: 0 <= i < k ==> names[i].Field? && names[i].protocol == Imap
    requires forall i :: k <= i < |names| ==> names[i].Field? && names[i].protocol == Smtp
    ensures ImapBeforeSmtp(names)
  {
  }

  /** All fields the IMAP column flagged come before all fields the SMTP
      column flagged. */
  lemma ImapEntriesPrecedeSmtp(info: AccountInfo, validServer: string -> bool)
    ensures ImapBeforeSmtp(ValidateAccountInfo(info, validServer).errorFieldNames)
  {
    var r := ValidateAccountInfo(info, validServer);
    if RequiredPresent(info.imapSettings) {
      ValidateAccountInfoUnrolled(info, validServer);
      var afterImap := CheckServer(info, Imap, validServer, Errors(None, []));
      var k := |afterImap.fieldNames|;
      ColumnFlagsItsOwnFields(info, Imap, validServer, Errors(None, []));
      if RequiredPresent(info.smtpSettings) {
        var afterSmtp := CheckServer(info, Smtp, validServer, afterImap);
        assert r.errorFieldNames == afterSmtp.fieldNames;
        SplitListIsOrdered(afterSmtp.fieldNames, k);
      } else {
        SplitListIsOrdered(afterImap.fieldNames, k);
      }
    }
  }

  /** A column that passes every check: host is a server name or address
      other than Gmail's, and the port is an integer. */
  predicate ColumnValid(s: ServerSettings, validServer: string -> bool) {
    && RequiredPresent(s)
    && validServer(s.host.value)
    && s.host.value != GmailImapHost
    && s.port.IntegerPort?
  }

  /** The checks of a column that passes them all change nothing. */
  lemma ValidColumnFlagsNothing(info: AccountInfo, p: Protocol, validServer: string -> bool, acc: Errors)
    requires ColumnValid(Settings(info, p), validServer)
    ensures CheckServer(info, p, validServer, acc) == acc
  {
  }

  /** The validator reports a clean, populated form exactly when both columns
      pass every check. */
  lemma CleanExactlyWhenAllValid(info: AccountInfo, validServer: string -> bool)
    ensures ValidateAccountInfo(info, validServer) == Validation(None, [], true) <==>
              ColumnValid(info.imapSettings, validServer) && ColumnValid(info.smtpSettings, validServer)
  {
    var r := ValidateAccountInfo(info, validServer);
    var none := Errors(None, []);
    if ColumnValid(info.imapSettings, validServer) && ColumnValid(info.smtpSettings, validServer) {
      ValidateAccountInfoUnrolled(info, validServer);
      ValidColumnFlagsNothing(info, Imap, validServer, none);
      ValidColumnFlagsNothing(info, Smtp, validServer, none);
    } else if r == Validation(None, [], true) {
      ValidateAccountInfoUnrolled(info, validServer);
      var afterImap := CheckServer(info, Imap, validServer, none);
      var afterSmtp := CheckServer(info, Smtp, validServer, afterImap);
      assert afterSmtp.fieldNames == [];
      assert afterImap.fieldNames == [];
      CheckServerFlags(info, Imap, validServer, none);
      CheckServerFlags(info, Smtp, validServer, afterImap);
      assert false;
    }
  }

  /** Whether the form draws field `f` with the `error` class, given the
      current field names in error. Host, username and password are gated by
      the field's own value; the port and the SSL checkbox are gated by the
      IMAP host, in either column. */
  predicate HasErrorClass(info: AccountInfo, errorFieldNames: seq<FieldName>, f: FieldName)
    ensures HasErrorClass(info, errorFieldNames, f) ==> f in errorFieldNames
    ensures f.SslRequired? || f.kind == Port ==>
              (HasErrorClass(info, errorFieldNames, f) <==> f in errorFieldNames && Truthy(info.imapSettings.host))
    ensures f.Field? && f.kind == Host ==>
              (HasErrorClass(info, errorFieldNames, f) <==> f in errorFieldNames && Truthy(Settings(info, f.protocol).host))
    ensures f.Field? && f.kind == Username ==>
              (HasErrorClass(info, errorFieldNames, f) <==> f in errorFieldNames && Truthy(Settings(info, f.protocol).username))
    ensures f.Field? && f.kind == Password ==>
              (HasErrorClass(info, errorFieldNames, f) <==> f in errorFieldNames && Truthy(Settings(info, f.protocol).password))
  {
    match f
    case Field(p, Host) => Truthy(Settings(info, p).host) && f in errorFieldNames
    case Field(_, Port) => Truthy(info.imapSettings.host) && f in errorFieldNames
    case SslRequired => Truthy(info.imapSettings.host) && f in errorFieldNames
    case Field(p, Username) => Truthy(Settings(info, p).username) && f in errorFieldNames
    case Field(p, Password) => Truthy(Settings(info, p).password) && f in errorFieldNames
  }

  /** The SMTP port is drawn in error whenever it is listed and the IMAP host
      is truthy, even with no SMTP host at all; a listed SMTP host is drawn
      only when the SMTP host itself is truthy. */
  lemma SmtpPortGatedByImapHost(info: AccountInfo, errorFieldNames: seq<FieldName>)
    requires Truthy(info.imapSettings.host) && !Truthy(info.smtpSettings.host)
    requires Field(Smtp, Port) in errorFieldNames && Field(Smtp, Host) in errorFieldNames
    ensures HasErrorClass(info, errorFieldNames, Field(Smtp, Port))
    ensures !HasErrorClass(info, errorFieldNames, Field(Smtp, Host))
  {
  }

  /** On the validator's own output the gating values never hide a flag: an
      input is drawn in error exactly when the validator flagged it, so
      usernames, passwords and the SSL checkbox never are. */
  lemma ErrorClassMatchesValidation(info: AccountInfo, validServer: string -> bool, f: FieldName)
    ensures var names := ValidateAccountInfo(info, validServer).errorFieldNames;
            && (HasErrorClass(info, names, f) <==> f in names)
            && (f.SslRequired? || f.kind == Username || f.kind == Password ==> !HasErrorClass(info, names, f))
  {
    FlaggedColumnsWereReached(info, validServer);
  }
}
