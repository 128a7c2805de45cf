/** Cookie Sync (src/cookie-sync.ts): the normalizer on the host that reads a browser's rows, and
    the worker's own check of the batch it is sent. */
module CookieSync {
  import opened Common

  const MAX_COOKIES := 10_000
  const MAX_BYTES := 6 * 1024 * 1024

  /** A value that crossed a trust boundary. */
  datatype Value =
    | Undefined
    | Null
    | Boolean(b: bool)
    | Number(n: real)
    | NotFinite
    | Text(s: string)
    | List(items: seq<Value>)
    | Record(fields: map<string, Value>)

  function Field(v: Value, key: string): Value {
    if v.Record? && key in v.fields then v.fields[key] else Undefined
  }

  predicate Absent(v: Value) { v.Null? || v.Undefined? }

  /** What the host's libraries decide: IDNA and URL parsing, and sizes in bytes. */
  datatype Host = Host(
    domainOf: string -> Option<string>,
    siteOf: string -> Option<string>,
    isolated: string -> bool,
    warningCode: Value -> string,
    utf8: string -> nat,
    encodedSize: seq<Value> -> nat)

  /** Normalizing a domain or an origin twice is normalizing it once. */
  ghost predicate Idempotent(h: Host) {
    && (forall s :: h.domainOf(s).Some? ==> h.domainOf(h.domainOf(s).value) == h.domainOf(s))
    && (forall s :: h.siteOf(s).Some? ==> h.siteOf(h.siteOf(s).value) == h.siteOf(s))
  }

  /** normalizeCookieDomain and partitionSite, with the empty string as a failure. */
  function NonEmpty(of: string -> Option<string>, v: Value): (r: Option<string>)
    ensures r.Some? ==> r.value != "" && v.Text? && of(v.s) == r
  {
    if v.Text? && of(v.s) != Some("") then of(v.s) else None
  }

  datatype Cookie = Cookie(
    name: string,
    value: string,
    domain: string,
    path: string,
    httpOnly: bool,
    secure: bool,
    expires: Option<real>,
    sameSite: Option<string>,
    sourceScheme: Option<string>,
    sourcePort: Option<real>,
    partitionKey: Option<string>,
    crossSiteAncestor: Option<bool>)

  predicate HasAsciiControl(s: string) {
    exists i :: 0 <= i < |s| && (s[i] <= '\U{001F}' || s[i] == '\U{007F}')
  }

  predicate IsInteger(n: real) { n.Floor as real == n }

  predicate IsPort(n: real) { IsInteger(n) && (n == -1.0 || 1.0 <= n <= 65535.0) }

  // ---- one row of the browser's store ----

  datatype Parsed = Accepted(cookie: Cookie) | Skipped(code: string)

  predicate EndsWith(s: string, end: string) {
    |end| <= |s| && s[|s| - |end|..] == end
  }

  predicate DomainSelected(cookieDomain: string, filters: Option<seq<string>>) {
    filters.Some? ==>
      var dotted := "." <= cookieDomain;
      var host := if dotted then cookieDomain[1..] else cookieDomain;
      exists d :: d in filters.value &&
        (host == d || EndsWith(host, "." + d) || (dotted && EndsWith(d, "." + host)))
  }

  datatype Mapped<T> = Bad | Mapped(value: Option<T>)

  function SameSite(v: Value): Mapped<string> {
    match v
    case Number(n) =>
      if n == -1.0 then Mapped(None)
      else if n == 0.0 then Mapped(Some("None"))
      else if n == 1.0 then Mapped(Some("Lax"))
      else if n == 2.0 then Mapped(Some("Strict"))
      else Bad
    case _ => Bad
  }

  function SourceScheme(v: Value): Mapped<string> {
    match v
    case Number(n) =>
      if n == 0.0 then Mapped(Some("Unset"))
      else if n == 1.0 then Mapped(Some("NonSecure"))
      else if n == 2.0 then Mapped(Some("Secure"))
      else Bad
    case _ => if Absent(v) then Mapped(None) else Bad
  }

  function SourcePort(v: Value): Mapped<real> {
    if Absent(v) then Mapped(None)
    else if v.Number? && IsPort(v.n) then Mapped(Some(v.n))
    else Bad
  }

  /** The first screen of parseDetailedCookie. */
  predicate Screened(h: Host, raw: Value) {
    var name, value, path := Field(raw, "name"), Field(raw, "value"), Field(raw, "path");
    && name.Text? && |name.s| <= 4_096 && '=' !in name.s && ';' !in name.s && !HasAsciiControl(name.s)
    && value.Text? && h.utf8(name.s) + h.utf8(value.s) <= 16_384 && |value.s| <= 16_384
    && ';' !in value.s && !HasAsciiControl(value.s)
    && NonEmpty(h.domainOf, Field(raw, "domain")).Some?
    && path.Text? && "/" <= path.s && |path.s| <= 4_096 && !HasAsciiControl(path.s)
    && Field(raw, "secure").Boolean? && Field(raw, "httpOnly").Boolean?
    && SameSite(Field(raw, "sameSite")).Mapped?
  }

  predicate IsContainerId(v: Value) { Absent(v) || (v.Number? && IsInteger(v.n) && v.n >= 0.0) }

  /** Firefox origin attributes and containers: the code of the skip, if there is one. */
  function Isolation(h: Host, context: Value): Option<string> {
    var attributes, partition := Field(context, "originAttributes"), Field(context, "partitionKey");
    var user, private := Field(context, "userContextId"), Field(context, "privateBrowsingId");
    if !(Absent(attributes) || attributes.Text?) || !IsContainerId(user) || !IsContainerId(private)
      || !(Absent(partition) || partition.Text?) then Some("malformed")
    else if (attributes.Text? && h.isolated(attributes.s)) || (user.Number? && user.n > 0.0)
      || (private.Number? && private.n > 0.0) || (partition.Text? && partition.s != "") then
      Some("unsupported_isolation")
    else None
  }

  /** The filters, the name prefixes and expiry: the code of the skip, if there is one. */
  function Refusal(h: Host, raw: Value, filters: Option<seq<string>>, now: real): Option<string>
    requires Screened(h, raw)
  {
    var name, path, secure := Field(raw, "name").s, Field(raw, "path").s, Field(raw, "secure").b;
    var domain, expires := NonEmpty(h.domainOf, Field(raw, "domain")).value, Field(raw, "expires");
    if !DomainSelected(domain, filters) then Some("domain_filtered")
    else if SameSite(Field(raw, "sameSite")).value == Some("None") && !secure then Some("malformed")
    else if "__Secure-" <= name && !secure then Some("malformed")
    else if "__Host-" <= name && (!secure || path != "/" || "." <= domain) then Some("malformed")
    else if !expires.Undefined? && !expires.Number? then Some("malformed")
    else if expires.Number? && expires.n <= now then Some("expired")
    else None
  }

  predicate Partitioned(context: Value) {
    var top := Field(context, "topFrameSiteKey");
    !Absent(top) && top != Text("")
  }

  /** The partition and the source of the row: the code of the skip, if there is one. */
  function Unsupported(h: Host, context: Value): Option<string> {
    var ancestor := Field(context, "hasCrossSiteAncestor");
    if !Absent(ancestor) && !ancestor.Boolean? then Some("malformed")
    else if Partitioned(context) && (NonEmpty(h.siteOf, Field(context, "topFrameSiteKey")).None? || !ancestor.Boolean?) then
      Some("unsupported_partition")
    else if SourceScheme(Field(context, "sourceScheme")).Bad? || SourcePort(Field(context, "sourcePort")).Bad? then
      Some("malformed")
    else None
  }

  function Assembled(h: Host, raw: Value, context: Value): Cookie
    requires Screened(h, raw) && Unsupported(h, context).None?
  {
    Cookie(Field(raw, "name").s, Field(raw, "value").s, NonEmpty(h.domainOf, Field(raw, "domain")).value,
           Field(raw, "path").s, Field(raw, "httpOnly").b, Field(raw, "secure").b,
           if Field(raw, "expires").Number? then Some(Field(raw, "expires").n) else None,
           SameSite(Field(raw, "sameSite")).value, SourceScheme(Field(context, "sourceScheme")).value,
           SourcePort(Field(context, "sourcePort")).value,
           if Partitioned(context) then NonEmpty(h.siteOf, Field(context, "topFrameSiteKey")) else None,
           if Partitioned(context) then Some(Field(context, "hasCrossSiteAncestor") == Boolean(true)) else None)
  }

  function ParseDetailedCookie(h: Host, row: Value, filters: Option<seq<string>>, now: real): Parsed {
    var raw, context := Field(row, "cookie"), Field(row, "context");
    if !raw.Record? || !context.Record? || !Screened(h, raw) then Skipped("malformed")
    else if Refusal(h, raw, filters, now).Some? then Skipped(Refusal(h, raw, filters, now).value)
    else if Isolation(h, context).Some? then Skipped(Isolation(h, context).value)
    else if Unsupported(h, context).Some? then Skipped(Unsupported(h, context).value)
    else Accepted(Assembled(h, raw, context))
  }

  // ---- the worker's check ----

  /** One entry of the batch, before expiry is looked at; None if it is malformed. */
  function CheckEntry(h: Host, entry: Value): Option<Cookie> {
    var name, value, path := Field(entry, "name"), Field(entry, "value"), Field(entry, "path");
    var domain, httpOnly, secure := NonEmpty(h.domainOf, Field(entry, "domain")), Field(entry, "httpOnly"), Field(entry, "secure");
    var expires, site, scheme := Field(entry, "expires"), Field(entry, "sameSite"), Field(entry, "sourceScheme");
    var port, key, ancestor := Field(entry, "sourcePort"), Field(entry, "partitionKey"), Field(entry, "partitionCrossSiteAncestor");
    if || !entry.Record?
       || !name.Text? || |name.s| > 4_096 || '=' in name.s || ';' in name.s || HasAsciiControl(name.s)
       || !value.Text? || |value.s| > 16_384 || ';' in value.s || HasAsciiControl(value.s)
       || h.utf8(name.s) + h.utf8(value.s) > 16_384
       || domain.None?
       || !path.Text? || !("/" <= path.s) || |path.s| > 4_096 || HasAsciiControl(path.s)
       || !httpOnly.Boolean? || !secure.Boolean?
       || (!expires.Undefined? && !expires.Number?)
       || (!site.Undefined? && (!site.Text? || site.s !in {"Strict", "Lax", "None"}))
       || (!scheme.Undefined? && (!scheme.Text? || scheme.s !in {"Unset", "NonSecure", "Secure"}))
       || (!port.Undefined? && (!port.Number? || !IsPort(port.n)))
       || (site == Text("None") && !secure.b)
       || ("__Secure-" <= name.s && !secure.b)
       || ("__Host-" <= name.s && (!secure.b || path.s != "/" || "." <= domain.value))
       || (!key.Undefined? && NonEmpty(h.siteOf, key).None?)
       || (key.Undefined? && !ancestor.Undefined?)
       || (!key.Undefined? && !ancestor.Boolean?)
    then None
    else
      Some(Cookie(name.s, value.s, domain.value, path.s, httpOnly.b, secure.b,
                  if expires.Number? then Some(expires.n) else None,
                  if site.Text? then Some(site.s) else None,
                  if scheme.Text? then Some(scheme.s) else None,
                  if port.Number? then Some(port.n) else None,
                  NonEmpty(h.siteOf, key),
                  if NonEmpty(h.siteOf, key).Some? then Some(ancestor == Boolean(true)) else None))
  }

  // ---- the two agree ----

  function TextField(v: Option<string>): Value { if v.Some? then Text(v.value) else Undefined }
  function NumberField(v: Option<real>): Value { if v.Some? then Number(v.value) else Undefined }
  function BooleanField(v: Option<bool>): Value { if v.Some? then Boolean(v.value) else Undefined }

  /** A cookie as it is sent to the worker. */
  function Wire(c: Cookie): Value {
    Record(map[
      "name" := Text(c.name), "value" := Text(c.value), "domain" := Text(c.domain), "path" := Text(c.path),
      "httpOnly" := Boolean(c.httpOnly), "secure" := Boolean(c.secure), "expires" := NumberField(c.expires),
      "sameSite" := TextField(c.sameSite), "sourceScheme" := TextField(c.sourceScheme),
      "sourcePort" := NumberField(c.sourcePort), "partitionKey" := TextField(c.partitionKey),
      "partitionCrossSiteAncestor" := BooleanField(c.crossSiteAncestor)])
  }

  predicate Expired(c: Cookie, now: real) { c.expires.Some? && c.expires.value <= now }

  /** What both ends want of a cookie, of its fields alone. */
  predicate Transferable(h: Host, c: Cookie) {
    && |c.name| <= 4_096 && '=' !in c.name && ';' !in c.name && !HasAsciiControl(c.name)
    && |c.value| <= 16_384 && ';' !in c.value && !HasAsciiControl(c.value)
    && h.utf8(c.name) + h.utf8(c.value) <= 16_384
    && c.domain != "" && h.domainOf(c.domain) == Some(c.domain)
    && "/" <= c.path && |c.path| <= 4_096 && !HasAsciiControl(c.path)
    && (c.sameSite.Some? ==> c.sameSite.value in {"Strict", "Lax", "None"})
    && (c.sourceScheme.Some? ==> c.sourceScheme.value in {"Unset", "NonSecure", "Secure"})
    && (c.sourcePort.Some? ==> IsPort(c.sourcePort.value))
    && (!c.secure ==> c.sameSite != Some("None") && !("__Secure-" <= c.name) && !("__Host-" <= c.name))
    && ("__Host-" <= c.name ==> c.path == "/" && !("." <= c.domain))
    && (c.partitionKey.Some? <==> c.crossSiteAncestor.Some?)
    && (c.partitionKey.Some? ==> c.partitionKey.value != "" && h.siteOf(c.partitionKey.value) == c.partitionKey)
  }

  lemma WireText(c: Cookie)
    ensures Wire(c).Record?
    ensures Field(Wire(c), "name") == Text(c.name) && Field(Wire(c), "value") == Text(c.value)
    ensures Field(Wire(c), "domain") == Text(c.domain) && Field(Wire(c), "path") == Text(c.path)
    ensures Field(Wire(c), "httpOnly") == Boolean(c.httpOnly) && Field(Wire(c), "secure") == Boolean(c.secure)
  {
    hide TextField, NumberField, BooleanField;
  }

  lemma WireOptions(c: Cookie)
    ensures Field(Wire(c), "expires") == NumberField(c.expires)
    ensures Field(Wire(c), "sameSite") == TextField(c.sameSite)
    ensures Field(Wire(c), "sourceScheme") == TextField(c.sourceScheme)
    ensures Field(Wire(c), "sourcePort") == NumberField(c.sourcePort)
    ensures Field(Wire(c), "partitionKey") == TextField(c.partitionKey)
    ensures Field(Wire(c), "partitionCrossSiteAncestor") == BooleanField(c.crossSiteAncestor)
  {
    hide TextField, NumberField, BooleanField;
  }

  /** The worker returns a cookie unchanged exactly when it is transferable. */
  lemma WorkerKeepsIff(h: Host, c: Cookie)
    ensures CheckEntry(h, Wire(c)) == Some(c) <==> Transferable(h, c)
  {
    WireText(c);
    WireOptions(c);
    hide Field, Wire, HasAsciiControl, IsPort;
  }

  /** Whatever the worker accepts, it would accept again. */
  lemma CheckedIsTransferable(h: Host, entry: Value)
    requires Idempotent(h) && CheckEntry(h, entry).Some?
    ensures Transferable(h, CheckEntry(h, entry).value)
  {
    hide Field, HasAsciiControl, IsPort;
  }

  /** Whatever the normalizer accepts is transferable, selected by the filters, and not expired. */
  lemma AcceptedIsTransferable(h: Host, row: Value, filters: Option<seq<string>>, now: real)
    requires Idempotent(h) && ParseDetailedCookie(h, row, filters, now).Accepted?
    ensures var c := ParseDetailedCookie(h, row, filters, now).cookie;
      Transferable(h, c) && !Expired(c, now) && DomainSelected(c.domain, filters)
  {
    hide Field, HasAsciiControl, IsPort, DomainSelected, Isolation;
  }

  function SameSiteCode(site: Option<string>): Value {
    Number(if site == Some("None") then 0.0 else if site == Some("Lax") then 1.0
           else if site == Some("Strict") then 2.0 else -1.0)
  }

  function SchemeCode(scheme: Option<string>): Value {
    if scheme == Some("Unset") then Number(0.0) else if scheme == Some("NonSecure") then Number(1.0)
    else if scheme == Some("Secure") then Number(2.0) else Undefined
  }

  /** A row a browser might hold for the cookie. */
  function RawOf(c: Cookie): Value {
    Record(map["name" := Text(c.name), "value" := Text(c.value), "domain" := Text(c.domain), "path" := Text(c.path),
           "httpOnly" := Boolean(c.httpOnly), "secure" := Boolean(c.secure), "expires" := NumberField(c.expires),
           "sameSite" := SameSiteCode(c.sameSite)])
  }

  function ContextOf(c: Cookie): Value {
    Record(map["topFrameSiteKey" := TextField(c.partitionKey), "hasCrossSiteAncestor" := BooleanField(c.crossSiteAncestor),
           "sourceScheme" := SchemeCode(c.sourceScheme), "sourcePort" := NumberField(c.sourcePort)])
  }

  function RowOf(c: Cookie): Value { Record(map["cookie" := RawOf(c), "context" := ContextOf(c)]) }

  lemma RawFields(c: Cookie)
    ensures Field(RowOf(c), "cookie") == RawOf(c) && RawOf(c).Record?
    ensures Field(RawOf(c), "name") == Text(c.name) && Field(RawOf(c), "value") == Text(c.value)
    ensures Field(RawOf(c), "domain") == Text(c.domain) && Field(RawOf(c), "path") == Text(c.path)
    ensures Field(RawOf(c), "httpOnly") == Boolean(c.httpOnly) && Field(RawOf(c), "secure") == Boolean(c.secure)
    ensures Field(RawOf(c), "expires") == NumberField(c.expires)
    ensures Field(RawOf(c), "sameSite") == SameSiteCode(c.sameSite)
  {
    hide NumberField, SameSiteCode, ContextOf;
  }

  lemma ContextFields(c: Cookie)
    ensures Field(RowOf(c), "context") == ContextOf(c) && ContextOf(c).Record?
    ensures Field(ContextOf(c), "topFrameSiteKey") == TextField(c.partitionKey)
    ensures Field(ContextOf(c), "hasCrossSiteAncestor") == BooleanField(c.crossSiteAncestor)
    ensures Field(ContextOf(c), "sourceScheme") == SchemeCode(c.sourceScheme)
    ensures Field(ContextOf(c), "sourcePort") == NumberField(c.sourcePort)
    ensures forall key :: key in {"originAttributes", "userContextId", "privateBrowsingId", "partitionKey"} ==>
      Field(ContextOf(c), key) == Undefined
  {
    hide TextField, NumberField, BooleanField, SchemeCode, RawOf;
  }

  lemma RowMapsSite(h: Host, c: Cookie)
    requires Transferable(h, c)
    ensures SameSite(Field(RawOf(c), "sameSite")) == Mapped(c.sameSite)
    ensures NonEmpty(h.domainOf, Field(RawOf(c), "domain")) == Some(c.domain)
  {
    RawFields(c);
    hide Field, RawOf, HasAsciiControl, IsPort;
  }

  lemma RowIsScreened(h: Host, c: Cookie)
    requires Transferable(h, c)
    ensures Screened(h, RawOf(c))
  {
    RawFields(c);
    RowMapsSite(h, c);
    hide Field, RawOf, HasAsciiControl, IsPort, SameSite, NonEmpty;
  }

  lemma RowIsNotIsolated(h: Host, c: Cookie)
    ensures Isolation(h, ContextOf(c)).None?
  {
    ContextFields(c);
    hide Field, ContextOf;
  }

  lemma RowIsNotRefused(h: Host, c: Cookie, now: real)
    requires Transferable(h, c) && !Expired(c, now) && Screened(h, RawOf(c))
    requires SameSite(Field(RawOf(c), "sameSite")) == Mapped(c.sameSite)
    ensures Refusal(h, RawOf(c), None, now).None?
  {
    RawFields(c);
    hide Field, RowOf, RawOf, ContextOf, HasAsciiControl, IsPort, SameSite, Screened;
  }

  lemma RowIsPartitioned(h: Host, c: Cookie)
    requires Transferable(h, c)
    ensures Partitioned(ContextOf(c)) <==> c.partitionKey.Some?
    ensures c.partitionKey.Some? ==> NonEmpty(h.siteOf, Field(ContextOf(c), "topFrameSiteKey")) == c.partitionKey
    ensures c.partitionKey.Some? <==> c.crossSiteAncestor.Some?
  {
    ContextFields(c);
    hide Field, ContextOf, HasAsciiControl, IsPort;
  }

  lemma RowMapsSource(h: Host, c: Cookie)
    requires Transferable(h, c)
    ensures SourceScheme(Field(ContextOf(c), "sourceScheme")) == Mapped(c.sourceScheme)
    ensures SourcePort(Field(ContextOf(c), "sourcePort")) == Mapped(c.sourcePort)
  {
    ContextFields(c);
    hide Field, RowOf, RawOf, ContextOf, HasAsciiControl, IsPort;
  }

  lemma RowIsSupported(h: Host, c: Cookie)
    requires Transferable(h, c)
    ensures Unsupported(h, ContextOf(c)).None?
  {
    ContextFields(c);
    RowIsPartitioned(h, c);
    RowMapsSource(h, c);
    hide Transferable, Field, RowOf, RawOf, ContextOf, NonEmpty, Partitioned, SourceScheme, SourcePort;
  }

  lemma RowAssembles(h: Host, c: Cookie)
    requires Transferable(h, c) && Screened(h, RawOf(c)) && Unsupported(h, ContextOf(c)).None?
    ensures Assembled(h, RawOf(c), ContextOf(c)) == c
  {
    RowMapsSite(h, c);
    RowMapsSource(h, c);
    RowIsPartitioned(h, c);
    RawFields(c);
    ContextFields(c);
    hide Transferable, Field, RowOf, RawOf, ContextOf, Screened, Unsupported, Isolation, NonEmpty, Partitioned, SameSite,
      SourceScheme, SourcePort, SchemeCode, SameSiteCode;
  }

  lemma TransferableHasRow(h: Host, c: Cookie, now: real)
    requires Transferable(h, c) && !Expired(c, now)
    ensures ParseDetailedCookie(h, RowOf(c), None, now) == Accepted(c)
  {
    RawFields(c);
    ContextFields(c);
    RowMapsSite(h, c);
    RowIsScreened(h, c);
    RowIsNotIsolated(h, c);
    RowIsNotRefused(h, c, now);
    RowIsSupported(h, c);
    RowAssembles(h, c);
    hide Transferable, Field, RowOf, RawOf, ContextOf, Screened, Refusal, Isolation, Unsupported, Assembled;
  }

  /** The cookies the normalizer can produce are those the worker keeps and that have not expired. */
  lemma SameCookies(h: Host, c: Cookie, now: real)
    requires Idempotent(h)
    ensures (exists row :: ParseDetailedCookie(h, row, None, now) == Accepted(c))
       <==> CheckEntry(h, Wire(c)) == Some(c) && !Expired(c, now)
  {
    WorkerKeepsIff(h, c);
    hide ParseDetailedCookie, CheckEntry, Transferable;
    if row :| ParseDetailedCookie(h, row, None, now) == Accepted(c) {
      AcceptedIsTransferable(h, row, None, now);
    }
    if Transferable(h, c) && !Expired(c, now) {
      TransferableHasRow(h, c, now);
    }
  }

  // ---- which rows are skipped, and why ----

  /** By code unit: below 32, or 127. */
  lemma ControlIff(s: string)
    ensures HasAsciiControl(s) <==> exists c: char :: c in s && (c as int < 32 || c as int == 127)
  {
    if HasAsciiControl(s) {
      var i :| 0 <= i < |s| && (s[i] <= '\U{001F}' || s[i] == '\U{007F}');
      assert s[i] in s && (s[i] as int < 32 || s[i] as int == 127);
    }
  }

  ghost predicate IsWhole(n: real, k: int) { n == k as real }

  lemma PortIff(n: real)
    ensures IsPort(n) <==> exists k: int :: IsWhole(n, k) && (k == -1 || 1 <= k <= 65535)
  {
    if IsPort(n) { assert IsWhole(n, n.Floor); }
    if k: int :| IsWhole(n, k) { assert n.Floor == k; }
  }

  lemma ContainerIff(v: Value)
    ensures IsContainerId(v) <==> v == Null || v == Undefined || (v.Number? && exists k: nat :: IsWhole(v.n, k))
  {
    if v.Number? && IsInteger(v.n) && v.n >= 0.0 {
      var k: nat := v.n.Floor;
      assert IsWhole(v.n, k);
    }
    if v.Number? {
      if k: nat :| IsWhole(v.n, k) { assert v.n.Floor == k; }
    }
  }

  ghost predicate IsUnder(host: string, domain: string) {
    exists sub: string :: host == sub + "." + domain
  }

  /** The cookie is sent to some chosen domain: to itself, to a domain above its host, or, if its
      domain takes in subdomains, to one below. */
  ghost predicate SentTo(cookieDomain: string, chosen: seq<string>) {
    var takesSubdomains := cookieDomain != "" && cookieDomain[0] == '.';
    var host := if takesSubdomains then cookieDomain[1..] else cookieDomain;
    exists d :: d in chosen && (host == d || IsUnder(host, d) || (takesSubdomains && IsUnder(d, host)))
  }

  lemma EndsUnder(s: string, domain: string)
    ensures EndsWith(s, "." + domain) <==> IsUnder(s, domain)
  {
    if EndsWith(s, "." + domain) { assert s == s[..|s| - |domain| - 1] + "." + domain; }
    if sub: string :| s == sub + "." + domain { assert s[|sub|..] == "." + domain; }
  }

  lemma SelectedIff(cookieDomain: string, filters: Option<seq<string>>)
    ensures DomainSelected(cookieDomain, filters) <==> filters.None? || SentTo(cookieDomain, filters.value)
  {
    assert "." <= cookieDomain <==> cookieDomain != "" && cookieDomain[0] == '.';
    var host := if "." <= cookieDomain then cookieDomain[1..] else cookieDomain;
    forall d ensures (EndsWith(host, "." + d) <==> IsUnder(host, d)) && (EndsWith(d, "." + host) <==> IsUnder(d, host)) {
      EndsUnder(host, d);
      EndsUnder(d, host);
    }
    hide EndsWith, IsUnder;
  }

  /** A row has a readable cookie. */
  ghost predicate Readable(h: Host, row: Value) {
    Field(row, "cookie").Record? && Field(row, "context").Record? && Screened(h, Field(row, "cookie"))
  }

  /** A readable row is filtered exactly if it is sent to no chosen domain, whatever else is wrong with it. */
  lemma FilteredIff(h: Host, row: Value, filters: Option<seq<string>>, now: real)
    ensures ParseDetailedCookie(h, row, filters, now) == Skipped("domain_filtered") <==>
      Readable(h, row) && filters.Some?
      && !SentTo(NonEmpty(h.domainOf, Field(Field(row, "cookie"), "domain")).value, filters.value)
  {
    hide Field, SentTo, DomainSelected, HasAsciiControl, IsPort;
    if Readable(h, row) { SelectedIff(NonEmpty(h.domainOf, Field(Field(row, "cookie"), "domain")).value, filters); }
  }

  /** The cookie lives in a container, a private window, a first-party partition, or under origin
      attributes that isolate it. */
  ghost predicate Isolated(h: Host, context: Value) {
    || (exists id: real :: id > 0.0 && (Field(context, "userContextId") == Number(id) || Field(context, "privateBrowsingId") == Number(id)))
    || (exists s :: s != "" && Field(context, "partitionKey") == Text(s))
    || (exists s :: h.isolated(s) && Field(context, "originAttributes") == Text(s))
  }

  /** A row is skipped as isolated exactly if it is, and nothing came before. */
  lemma IsolatedIff(h: Host, row: Value, filters: Option<seq<string>>, now: real)
    ensures ParseDetailedCookie(h, row, filters, now) == Skipped("unsupported_isolation") <==>
      Readable(h, row) && Refusal(h, Field(row, "cookie"), filters, now).None?
      && WellFormed(Field(row, "context")) && Isolated(h, Field(row, "context"))
    ensures Isolated(h, Field(row, "context")) ==> ParseDetailedCookie(h, row, filters, now).Skipped?
  {
    hide Field, Screened, Assembled, DomainSelected, SameSite, NonEmpty;
  }

  /** A sound row in a context that is not well formed is malformed. */
  lemma IllFormedIsSkipped(h: Host, row: Value, filters: Option<seq<string>>, now: real)
    requires Readable(h, row) && Refusal(h, Field(row, "cookie"), filters, now).None? && !WellFormed(Field(row, "context"))
    ensures ParseDetailedCookie(h, row, filters, now) == Skipped("malformed")
  {
    hide Field, Screened, Refusal, Unsupported, Assembled;
  }

  ghost predicate WellFormed(context: Value) {
    var attributes, partition := Field(context, "originAttributes"), Field(context, "partitionKey");
    && (Absent(attributes) || attributes.Text?) && (Absent(partition) || partition.Text?)
    && IsContainerId(Field(context, "userContextId")) && IsContainerId(Field(context, "privateBrowsingId"))
  }

  /** A name and its flags agree: what is None or __Secure- is secure, and __Host- is secure and bound
      to one host. */
  ghost predicate Consistent(h: Host, raw: Value)
    requires Screened(h, raw)
  {
    var name := Field(raw, "name").s;
    && (Field(raw, "sameSite") == Number(0.0) || "__Secure-" <= name || "__Host-" <= name ==> Field(raw, "secure") == Boolean(true))
    && ("__Host-" <= name ==>
          Field(raw, "path") == Text("/") && !("." <= NonEmpty(h.domainOf, Field(raw, "domain")).value))
  }

  /** A row is skipped as expired exactly if it has expired, and is readable, selected and consistent. */
  lemma ExpiredIff(h: Host, row: Value, filters: Option<seq<string>>, now: real)
    ensures ParseDetailedCookie(h, row, filters, now) == Skipped("expired") <==>
      var raw := Field(row, "cookie");
      && Readable(h, row) && DomainSelected(NonEmpty(h.domainOf, Field(raw, "domain")).value, filters) && Consistent(h, raw)
      && Field(raw, "expires").Number? && Field(raw, "expires").n <= now
    ensures Field(Field(row, "cookie"), "expires").Number? && Field(Field(row, "cookie"), "expires").n <= now ==>
      ParseDetailedCookie(h, row, filters, now).Skipped?
  {
    hide Field, DomainSelected, HasAsciiControl, IsPort, Assembled, NonEmpty;
  }

  /** There are no other codes, so all other skipped rows are malformed. */
  lemma OtherwiseMalformed(h: Host, row: Value, filters: Option<seq<string>>, now: real)
    requires ParseDetailedCookie(h, row, filters, now).Skipped?
    ensures ParseDetailedCookie(h, row, filters, now).code in
      {"malformed", "domain_filtered", "expired", "unsupported_isolation", "unsupported_partition"}
  {
    hide Field, Screened, DomainSelected, HasAsciiControl, IsPort, Assembled, NonEmpty, SourceScheme, SourcePort, SameSite;
  }

  /** A row is skipped for its partition exactly if it names one that is no site, or does not say
      whether an ancestor is of another site; earlier flaws come first. */
  lemma PartitionIsSkipped(h: Host, row: Value, filters: Option<seq<string>>, now: real)
    requires Readable(h, row) && Refusal(h, Field(row, "cookie"), filters, now).None?
    requires Isolation(h, Field(row, "context")).None?
    ensures ParseDetailedCookie(h, row, filters, now) == Skipped("unsupported_partition") <==>
      var context := Field(row, "context");
      var top, ancestor := Field(context, "topFrameSiteKey"), Field(context, "hasCrossSiteAncestor");
      !Absent(top) && top != Text("")
      && (Absent(ancestor) || (ancestor.Boolean? && NonEmpty(h.siteOf, top).None?))
  {
    hide Field, Screened, Refusal, Isolation, Assembled, NonEmpty, SourceScheme, SourcePort;
  }

  // ---- normalizing a snapshot ----

  datatype Identity = Identity(name: string, domain: string, path: string, partition: string, ancestor: Option<bool>)

  function IdentityOf(c: Cookie): Identity {
    Identity(c.name, c.domain, c.path, if c.partitionKey.Some? then c.partitionKey.value else "", c.crossSiteAncestor)
  }

  /** Cookies are the same cookie if they agree in name, domain, path and partition. */
  lemma SameIdentityIff(a: Cookie, b: Cookie)
    requires a.partitionKey != Some("") && b.partitionKey != Some("")
    ensures IdentityOf(a) == IdentityOf(b) <==>
      (a.name == b.name && a.domain == b.domain && a.path == b.path
       && a.partitionKey == b.partitionKey && a.crossSiteAncestor == b.crossSiteAncestor)
  {
  }

  predicate Has(p: Parsed, id: Identity) { p.Accepted? && IdentityOf(p.cookie) == id }

  /** The last row with an identity, or -1. */
  function LastWith(rows: seq<Parsed>, id: Identity): (r: int)
    ensures -1 <= r < |rows| && (r >= 0 ==> Has(rows[r], id))
    ensures forall i :: r < i < |rows| ==> !Has(rows[i], id)
  {
    if rows == [] then -1
    else if Has(rows[|rows| - 1], id) then |rows| - 1
    else LastWith(rows[..|rows| - 1], id)
  }

  /** The first row with an identity, or -1. */
  function FirstWith(rows: seq<Parsed>, id: Identity): (r: int)
    ensures -1 <= r < |rows| && (r >= 0 ==> Has(rows[r], id))
    ensures forall i :: 0 <= i < (if r >= 0 then r else |rows|) ==> !Has(rows[i], id)
  {
    if rows == [] then -1
    else
      var r := FirstWith(rows[..|rows| - 1], id);
      if r >= 0 then r else if Has(rows[|rows| - 1], id) then |rows| - 1 else -1
  }

  ghost function SkippedWith(rows: seq<Parsed>, code: string): nat {
    if rows == [] then 0
    else SkippedWith(rows[..|rows| - 1], code) + if rows[|rows| - 1] == Skipped(code) then 1 else 0
  }

  ghost function AllSkipped(rows: seq<Parsed>): nat {
    if rows == [] then 0 else AllSkipped(rows[..|rows| - 1]) + if rows[|rows| - 1].Skipped? then 1 else 0
  }

  /** Accepted rows that meet an earlier row with their identity. */
  ghost function Replacing(rows: seq<Parsed>): nat {
    if rows == [] then 0
    else
      var front, last := rows[..|rows| - 1], rows[|rows| - 1];
      Replacing(front) + if last.Accepted? && LastWith(front, IdentityOf(last.cookie)) >= 0 then 1 else 0
  }

  /** What is kept of the rows: one cookie an identity, that of its last row, in the order of
      the first rows. */
  ghost predicate IsKept(rows: seq<Parsed>, kept: seq<Cookie>) {
    && (forall i :: 0 <= i < |rows| && rows[i].Accepted? ==> exists k :: 0 <= k < |kept| && IdentityOf(kept[k]) == IdentityOf(rows[i].cookie))
    && (forall k :: 0 <= k < |kept| ==>
         var last := LastWith(rows, IdentityOf(kept[k])); last >= 0 && rows[last].cookie == kept[k])
    && (forall j, k :: 0 <= j < k < |kept| ==> FirstWith(rows, IdentityOf(kept[j])) < FirstWith(rows, IdentityOf(kept[k])))
  }

  /** The entry of an identity is its last row. */
  ghost predicate HoldsLast(rows: seq<Parsed>, entries: map<Identity, Cookie>, id: Identity) {
    var last := LastWith(rows, id);
    if id in entries then last >= 0 && entries[id] == rows[last].cookie else last == -1
  }

  ghost predicate Latest(rows: seq<Parsed>, entries: map<Identity, Cookie>) {
    forall id :: HoldsLast(rows, entries, id)
  }

  ghost predicate Ordered(rows: seq<Parsed>, keys: seq<Identity>) {
    forall j, k :: 0 <= j < k < |keys| ==> FirstWith(rows, keys[j]) < FirstWith(rows, keys[k])
  }

  /** The insertion-ordered map of the loop, after these rows. */
  ghost predicate Holds(rows: seq<Parsed>, keys: seq<Identity>, entries: map<Identity, Cookie>) {
    && (forall id :: id in keys <==> id in entries)
    && Latest(rows, entries) && Ordered(rows, keys)
  }

  lemma AppendRow(rows: seq<Parsed>, p: Parsed, id: Identity)
    ensures LastWith(rows + [p], id) == if Has(p, id) then |rows| else LastWith(rows, id)
    ensures FirstWith(rows + [p], id) ==
      if FirstWith(rows, id) >= 0 then FirstWith(rows, id) else if Has(p, id) then |rows| else -1
    ensures FirstWith(rows, id) >= 0 <==> LastWith(rows, id) >= 0
  {
    assert (rows + [p])[..|rows|] == rows;
  }

  lemma LatestNext(rows: seq<Parsed>, p: Parsed, entries: map<Identity, Cookie>)
    requires Latest(rows, entries)
    ensures Latest(rows + [p], if p.Accepted? then entries[IdentityOf(p.cookie) := p.cookie] else entries)
  {
    var entries' := if p.Accepted? then entries[IdentityOf(p.cookie) := p.cookie] else entries;
    forall id ensures HoldsLast(rows + [p], entries', id) {
      assert HoldsLast(rows, entries, id);
      AppendRow(rows, p, id);
    }
  }

  lemma OrderedNext(rows: seq<Parsed>, p: Parsed, keys: seq<Identity>)
    requires Ordered(rows, keys) && forall k :: 0 <= k < |keys| ==> LastWith(rows, keys[k]) >= 0
    ensures Ordered(rows + [p], keys)
    ensures p.Accepted? && LastWith(rows, IdentityOf(p.cookie)) == -1 ==>
      Ordered(rows + [p], keys + [IdentityOf(p.cookie)])
  {
    forall k | 0 <= k < |keys| ensures FirstWith(rows + [p], keys[k]) == FirstWith(rows, keys[k]) {
      AppendRow(rows, p, keys[k]);
    }
    if p.Accepted? {
      AppendRow(rows, p, IdentityOf(p.cookie));
    }
  }

  /** A Map iterates in the order its keys were first set. */
  datatype Table = Table(keys: seq<Identity>, entries: map<Identity, Cookie>)

  function Put(t: Table, c: Cookie): Table {
    var id := IdentityOf(c);
    Table(if id in t.entries then t.keys else t.keys + [id], t.entries[id := c])
  }

  lemma HoldsNext(rows: seq<Parsed>, p: Parsed, t: Table)
    requires Holds(rows, t.keys, t.entries)
    ensures var t' := if p.Accepted? then Put(t, p.cookie) else t; Holds(rows + [p], t'.keys, t'.entries)
  {
    LatestNext(rows, p, t.entries);
    forall k | 0 <= k < |t.keys| ensures LastWith(rows, t.keys[k]) >= 0 {
      assert t.keys[k] in t.keys && HoldsLast(rows, t.entries, t.keys[k]);
    }
    assert p.Accepted? ==> HoldsLast(rows, t.entries, IdentityOf(p.cookie));
    OrderedNext(rows, p, t.keys);
    hide Latest, Ordered, LastWith;
  }

  ghost function TableOf(rows: seq<Parsed>): Table {
    if rows == [] then Table([], map[])
    else
      var t, last := TableOf(rows[..|rows| - 1]), rows[|rows| - 1];
      if last.Accepted? then Put(t, last.cookie) else t
  }

  lemma {:induction false} TableHolds(rows: seq<Parsed>)
    ensures Holds(rows, TableOf(rows).keys, TableOf(rows).entries)
    decreases |rows|
  {
    if rows == [] {
      assert forall id :: HoldsLast(rows, map[], id);
    } else {
      var front := rows[..|rows| - 1];
      TableHolds(front);
      HoldsNext(front, rows[|rows| - 1], TableOf(front));
      assert front + [rows[|rows| - 1]] == rows;
    }
  }

  function Values(t: Table): (r: seq<Cookie>)
    requires forall id :: id in t.keys ==> id in t.entries
    ensures |r| == |t.keys| && forall k :: 0 <= k < |r| ==> r[k] == t.entries[t.keys[k]]
  {
    seq(|t.keys|, k requires 0 <= k < |t.keys| => assert t.keys[k] in t.keys; t.entries[t.keys[k]])
  }

  ghost function Kept(rows: seq<Parsed>): seq<Cookie> {
    TableHolds(rows);
    Values(TableOf(rows))
  }

  /** One cookie is kept for each identity, that of its last row; they stand in the order of the
      first rows. */
  lemma KeptIsLatest(rows: seq<Parsed>)
    ensures IsKept(rows, Kept(rows))
  {
    TableHolds(rows);
    var t, kept := TableOf(rows), Kept(rows);
    forall k | 0 <= k < |kept| ensures IdentityOf(kept[k]) == t.keys[k]
      && LastWith(rows, t.keys[k]) >= 0 && rows[LastWith(rows, t.keys[k])].cookie == kept[k]
    {
      assert t.keys[k] in t.keys && HoldsLast(rows, t.entries, t.keys[k]);
    }
    forall i | 0 <= i < |rows| && rows[i].Accepted?
      ensures exists k :: 0 <= k < |kept| && IdentityOf(kept[k]) == IdentityOf(rows[i].cookie)
    {
      assert HoldsLast(rows, t.entries, IdentityOf(rows[i].cookie)) && Has(rows[i], IdentityOf(rows[i].cookie));
      assert IdentityOf(rows[i].cookie) in t.keys;
    }
  }

  /** Where each kept cookie's identity is first met. */
  ghost function Firsts(rows: seq<Parsed>, kept: seq<Cookie>): (r: seq<int>)
    ensures |r| == |kept| && forall k :: 0 <= k < |r| ==> r[k] == FirstWith(rows, IdentityOf(kept[k]))
  {
    seq(|kept|, k requires 0 <= k < |kept| => FirstWith(rows, IdentityOf(kept[k])))
  }

  lemma KeptHasFirst(rows: seq<Parsed>, kept: seq<Cookie>, k: nat)
    requires IsKept(rows, kept) && k < |kept|
    ensures var first := FirstWith(rows, IdentityOf(kept[k]));
      && first >= 0 && Has(rows[first], IdentityOf(kept[k]))
      && rows[LastWith(rows, IdentityOf(rows[first].cookie))].cookie == kept[k]
  {
    assert LastWith(rows, IdentityOf(kept[k])) >= 0;
  }

  lemma SameFirsts(rows: seq<Parsed>, a: seq<Cookie>, b: seq<Cookie>, first: int)
    requires IsKept(rows, a) && IsKept(rows, b) && first in Firsts(rows, a)
    ensures first in Firsts(rows, b)
  {
    var k :| 0 <= k < |a| && Firsts(rows, a)[k] == first;
    KeptHasFirst(rows, a, k);
    var j :| 0 <= j < |b| && IdentityOf(b[j]) == IdentityOf(rows[first].cookie);
    assert Firsts(rows, b)[j] == first;
  }

  /** Nothing else is: that says which cookies are kept, and where each stands. */
  lemma KeptIsUnique(rows: seq<Parsed>, kept: seq<Cookie>)
    requires IsKept(rows, kept)
    ensures kept == Kept(rows)
  {
    KeptIsLatest(rows);
    var a, b := Firsts(rows, kept), Firsts(rows, Kept(rows));
    forall first ensures first in a <==> first in b {
      if first in a { SameFirsts(rows, kept, Kept(rows), first); }
      if first in b { SameFirsts(rows, Kept(rows), kept, first); }
    }
    SameMembersSameList(a, b);
    forall k | 0 <= k < |kept| ensures kept[k] == Kept(rows)[k] {
      KeptHasFirst(rows, kept, k);
      KeptHasFirst(rows, Kept(rows), k);
    }
  }

  /** Rows are conserved: each is kept, skipped, or replaces an earlier one. */
  lemma {:induction false} RowsAreConserved(rows: seq<Parsed>)
    ensures |rows| == |Kept(rows)| + AllSkipped(rows) + Replacing(rows)
    decreases |rows|
  {
    if rows != [] {
      var front, last := rows[..|rows| - 1], rows[|rows| - 1];
      RowsAreConserved(front);
      TableHolds(front);
      assert last.Accepted? ==> HoldsLast(front, TableOf(front).entries, IdentityOf(last.cookie));
    }
  }

  // ---- warnings ----

  function CountOf(warning: Value): (n: nat)
    ensures !Field(warning, "count").Number? ==> n == 1
    ensures Field(warning, "count").Number? && Field(warning, "count").n < 0.0 ==> n == 0
    ensures Field(warning, "count").Number? && Field(warning, "count").n >= 0.0 ==>
      n as real <= Field(warning, "count").n < (n + 1) as real
  {
    var count := Field(warning, "count");
    if count.Number? then (if count.n.Floor < 0 then 0 else count.n.Floor) else 1
  }

  /** The counts the browser reader reported under a code. */
  ghost function Upstream(h: Host, warnings: seq<Value>, code: string): nat {
    if warnings == [] then 0
    else
      var front, last := warnings[..|warnings| - 1], warnings[|warnings| - 1];
      Upstream(h, front, code) + if h.warningCode(Field(last, "code")) == code then CountOf(last) else 0
  }

  function Counted(counts: map<string, nat>, code: string): nat { if code in counts then counts[code] else 0 }

  function AddWarning(counts: map<string, nat>, code: string, count: nat): map<string, nat> {
    counts[code := Counted(counts, code) + count]
  }

  lemma CountNext(h: Host, warnings: seq<Value>, i: nat, code: string)
    requires i < |warnings|
    ensures Upstream(h, warnings[..i + 1], code) == Upstream(h, warnings[..i], code)
      + if h.warningCode(Field(warnings[i], "code")) == code then CountOf(warnings[i]) else 0
  {
    assert warnings[..i + 1][..i] == warnings[..i];
  }

  /** The warnings the reader reported, added up. */
  method CountUpstream(h: Host, warnings: Value) returns (counts: map<string, nat>)
    ensures forall code :: Counted(counts, code) == if warnings.List? then Upstream(h, warnings.items, code) else 0
  {
    counts := map[];
    if warnings.List? {
      for i := 0 to |warnings.items|
        invariant forall code :: Counted(counts, code) == Upstream(h, warnings.items[..i], code)
      {
        hide Upstream, CountOf;
        var warning := warnings.items[i];
        ghost var before := counts;
        var reported := h.warningCode(Field(warning, "code"));
        counts := AddWarning(counts, reported, CountOf(warning));
        forall code ensures Counted(counts, code) == Upstream(h, warnings.items[..i + 1], code) {
          CountNext(h, warnings.items, i, code);
          assert Counted(counts, code) == Counted(before, code) + if reported == code then CountOf(warning) else 0;
        }
      }
      assert warnings.items[..|warnings.items|] == warnings.items;
    }
  }

  datatype Extraction = Extraction(cookies: seq<Cookie>, selected: nat, skipped: nat, warnings: map<string, nat>)
  datatype Reason = NotASnapshot | TooManyCookies | TooMuchData | InvalidBatch | MalformedBatch
  datatype Outcome<+T> = Ok(value: T) | Failed(reason: Reason)

  function Wires(cookies: seq<Cookie>): (r: seq<Value>)
    ensures |r| == |cookies| && forall k :: 0 <= k < |r| ==> r[k] == Wire(cookies[k])
  {
    seq(|cookies|, k requires 0 <= k < |cookies| => Wire(cookies[k]))
  }

  /** Every row, parsed. */
  function Rows(h: Host, detailed: seq<Value>, filters: Option<seq<string>>, now: real): (r: seq<Parsed>)
    ensures |r| == |detailed| && forall i :: 0 <= i < |r| ==> r[i] == ParseDetailedCookie(h, detailed[i], filters, now)
  {
    seq(|detailed|, i requires 0 <= i < |detailed| => ParseDetailedCookie(h, detailed[i], filters, now))
  }

  /** How often each code is reported: by the reader, for skipped rows, for replaced rows. */
  ghost function Reported(h: Host, warnings: Value, rows: seq<Parsed>, code: string): nat {
    (if warnings.List? then Upstream(h, warnings.items, code) else 0)
    + SkippedWith(rows, code) + if code == "duplicate_replaced" then Replacing(rows) else 0
  }

  lemma ReportedNext(h: Host, warnings: Value, rows: seq<Parsed>, i: nat, code: string)
    requires i < |rows|
    ensures Reported(h, warnings, rows[..i + 1], code) == Reported(h, warnings, rows[..i], code)
      + (if rows[i] == Skipped(code) then 1 else 0)
      + if code == "duplicate_replaced" && rows[i].Accepted? && LastWith(rows[..i], IdentityOf(rows[i].cookie)) >= 0 then 1 else 0
  {
    assert rows[..i + 1][..i] == rows[..i];
  }

  lemma TableNext(rows: seq<Parsed>, i: nat)
    requires i < |rows|
    ensures TableOf(rows[..i + 1]) == if rows[i].Accepted? then Put(TableOf(rows[..i]), rows[i].cookie) else TableOf(rows[..i])
    ensures AllSkipped(rows[..i + 1]) == AllSkipped(rows[..i]) + if rows[i].Skipped? then 1 else 0
    ensures rows[i].Accepted? ==>
      (IdentityOf(rows[i].cookie) in TableOf(rows[..i]).entries <==> LastWith(rows[..i], IdentityOf(rows[i].cookie)) >= 0)
  {
    assert rows[..i + 1][..i] == rows[..i];
    TableHolds(rows[..i]);
    assert rows[i].Accepted? ==> HoldsLast(rows[..i], TableOf(rows[..i]).entries, IdentityOf(rows[i].cookie));
  }

  /** The loop over the rows. */
  method CollectRows(h: Host, detailed: seq<Value>, warnings: Value, filters: Option<seq<string>>, now: real)
    returns (table: Table, skipped: nat, counts: map<string, nat>)
    ensures var rows := Rows(h, detailed, filters, now);
      && table == TableOf(rows) && skipped == AllSkipped(rows)
      && forall code :: Counted(counts, code) == Reported(h, warnings, rows, code)
  {
    hide ParseDetailedCookie, TableOf, AllSkipped, LastWith;
    ghost var rows := Rows(h, detailed, filters, now);
    counts := CountUpstream(h, warnings);
    table, skipped := Table([], map[]), 0;
    NoRows(h, warnings, rows);
    hide Reported;
    for i := 0 to |detailed|
      invariant table == TableOf(rows[..i]) && skipped == AllSkipped(rows[..i])
      invariant forall code :: Counted(counts, code) == Reported(h, warnings, rows[..i], code)
    {
      var parsed := ParseDetailedCookie(h, detailed[i], filters, now);
      TableNext(rows, i);
      forall code { ReportedNext(h, warnings, rows, i, code); }
      if parsed.Skipped? {
        skipped := skipped + 1;
        counts := AddWarning(counts, parsed.code, 1);
        continue;
      }
      if IdentityOf(parsed.cookie) in table.entries {
        counts := AddWarning(counts, "duplicate_replaced", 1);
      }
      table := Put(table, parsed.cookie);
    }
    assert rows[..|rows|] == rows;
  }

  lemma NoRows(h: Host, warnings: Value, rows: seq<Parsed>)
    ensures TableOf(rows[..0]) == Table([], map[]) && AllSkipped(rows[..0]) == 0
    ensures forall code ::
      Reported(h, warnings, rows[..0], code) == if warnings.List? then Upstream(h, warnings.items, code) else 0
  {
  }

  method NormalizeCookieSnapshot(h: Host, snapshot: Value, filters: Option<seq<string>>, now: real)
    returns (r: Outcome<Extraction>)
    ensures !Field(snapshot, "detailedCookies").List? ==> r == Failed(NotASnapshot)
    ensures Field(snapshot, "detailedCookies").List? ==>
      var rows := Rows(h, Field(snapshot, "detailedCookies").items, filters, now);
      if |Kept(rows)| > MAX_COOKIES then r == Failed(TooManyCookies)
      else if h.encodedSize(Wires(Kept(rows))) > MAX_BYTES then r == Failed(TooMuchData)
      else
        && r.Ok? && r.value.cookies == Kept(rows)
        && r.value.selected == |Kept(rows)| && r.value.skipped == AllSkipped(rows)
        && (forall code :: Counted(r.value.warnings, code) == Reported(h, Field(snapshot, "warnings"), rows, code))
        && (forall code :: code in r.value.warnings ==> r.value.warnings[code] > 0)
  {
    hide ParseDetailedCookie, Reported;
    var detailed := Field(snapshot, "detailedCookies");
    if !detailed.List? { return Failed(NotASnapshot); }
    var table, skipped, counts := CollectRows(h, detailed.items, Field(snapshot, "warnings"), filters, now);
    TableHolds(Rows(h, detailed.items, filters, now));
    var output := Values(table);
    if |table.keys| > MAX_COOKIES { return Failed(TooManyCookies); }
    if h.encodedSize(Wires(output)) > MAX_BYTES { return Failed(TooMuchData); }
    r := Ok(Extraction(output, |table.keys|, skipped, map code | code in counts && counts[code] > 0 :: counts[code]));
  }

  // ---- the worker's batch ----

  /** The entries that have not expired when the clock is read for them. */
  function Fresh(cookies: seq<Cookie>, clock: nat -> real): seq<Cookie> {
    if cookies == [] then []
    else
      var front, last := cookies[..|cookies| - 1], cookies[|cookies| - 1];
      Fresh(front, clock) + if Expired(last, clock(|front|)) then [] else [last]
  }

  /** What the worker makes of each entry. */
  predicate Reads(h: Host, batch: seq<Value>, cookies: seq<Cookie>) {
    |cookies| == |batch| && forall i :: 0 <= i < |batch| ==> CheckEntry(h, batch[i]) == Some(cookies[i])
  }

  lemma ReadsNext(h: Host, batch: seq<Value>, i: nat, read: seq<Cookie>, c: Cookie, clock: nat -> real)
    requires i < |batch| && Reads(h, batch[..i], read) && CheckEntry(h, batch[i]) == Some(c)
    ensures Reads(h, batch[..i + 1], read + [c])
    ensures Fresh(read + [c], clock) == if Expired(c, clock(i)) then Fresh(read, clock) else Fresh(read, clock) + [c]
  {
    hide CheckEntry;
    assert (read + [c])[..i] == read;
    assert Fresh(read, clock) + [] == Fresh(read, clock);
  }

  method ValidateTargetCookies(h: Host, value: Value, clock: nat -> real) returns (r: Outcome<seq<Cookie>>, ghost read: seq<Cookie>)
    ensures !value.List? || |value.items| > MAX_COOKIES ==> r == Failed(InvalidBatch)
    ensures value.List? && |value.items| <= MAX_COOKIES ==>
      if h.encodedSize(value.items) > MAX_BYTES then r == Failed(TooMuchData)
      else if exists i :: 0 <= i < |value.items| && CheckEntry(h, value.items[i]).None? then r == Failed(MalformedBatch)
      else Reads(h, value.items, read) && r == Ok(Fresh(read, clock))
  {
    read := [];
    if !value.List? || |value.items| > MAX_COOKIES { return Failed(InvalidBatch), read; }
    if h.encodedSize(value.items) > MAX_BYTES { return Failed(TooMuchData), read; }
    hide CheckEntry;
    var parsed: seq<Cookie> := [];
    for i := 0 to |value.items|
      invariant Reads(h, value.items[..i], read) && parsed == Fresh(read, clock)
    {
      hide Reads, Fresh, Expired;
      var entry := CheckEntry(h, value.items[i]);
      if entry.None? { return Failed(MalformedBatch), read; }
      ReadsNext(h, value.items, i, read, entry.value, clock);
      read := read + [entry.value];
      if Expired(entry.value, clock(i)) { continue; }
      parsed := parsed + [entry.value];
    }
    assert value.items[..|value.items|] == value.items;
    r := Ok(parsed);
  }

  lemma {:induction false} FreshUnexpired(cookies: seq<Cookie>, clock: nat -> real)
    ensures (forall i :: 0 <= i < |cookies| ==> !Expired(cookies[i], clock(i))) ==> Fresh(cookies, clock) == cookies
    decreases |cookies|
  {
    if cookies != [] {
      var front := cookies[..|cookies| - 1];
      FreshUnexpired(front, clock);
      assert forall i :: 0 <= i < |front| ==> front[i] == cookies[i];
    }
  }

  /** The worker reads a batch the normalizer kept as what was kept, so it drops nothing but what
      has expired since. */
  lemma KeptBatchIsReadBack(h: Host, detailed: seq<Value>, filters: Option<seq<string>>, now: real, clock: nat -> real)
    requires Idempotent(h)
    ensures var kept := Kept(Rows(h, detailed, filters, now));
      && Reads(h, Wires(kept), kept)
      && (forall read :: Reads(h, Wires(kept), read) ==> read == kept)
      && ((forall i :: 0 <= i < |kept| ==> !Expired(kept[i], clock(i))) ==> Fresh(kept, clock) == kept)
  {
    hide CheckEntry, ParseDetailedCookie, Transferable, Kept, Wire;
    var rows := Rows(h, detailed, filters, now);
    var kept := Kept(rows);
    KeptIsLatest(rows);
    forall k | 0 <= k < |kept| ensures CheckEntry(h, Wires(kept)[k]) == Some(kept[k]) {
      var last := LastWith(rows, IdentityOf(kept[k]));
      assert rows[last].cookie == kept[k];
      AcceptedIsTransferable(h, detailed[last], filters, now);
      WorkerKeepsIff(h, kept[k]);
    }
    FreshUnexpired(kept, clock);
    forall read | Reads(h, Wires(kept), read) ensures read == kept {
      forall k | 0 <= k < |kept| ensures read[k] == kept[k] {
        assert CheckEntry(h, Wires(kept)[k]) == Some(read[k]);
      }
    }
  }

  /** A snapshot is normalized, sent to the worker and checked there. The worker accepts every batch
      the normalizer returned, limits included, and returns it whole while nothing has expired. */
  method Transfer(h: Host, snapshot: Value, filters: Option<seq<string>>, now: real, clock: nat -> real)
    returns (sent: Outcome<Extraction>, received: Outcome<seq<Cookie>>)
    requires Idempotent(h)
    ensures sent.Failed? ==> received == Failed(sent.reason)
    ensures sent.Ok? ==> received == Ok(Fresh(sent.value.cookies, clock))
    ensures sent.Ok? && (forall i :: 0 <= i < |sent.value.cookies| ==> !Expired(sent.value.cookies[i], clock(i))) ==>
      received == Ok(sent.value.cookies)
  {
    hide CheckEntry, Kept, Wire, Reported, Expired, Fresh, Transferable, ParseDetailedCookie;
    sent := NormalizeCookieSnapshot(h, snapshot, filters, now);
    if sent.Failed? { return sent, Failed(sent.reason); }
    var batch := Wires(sent.value.cookies);
    KeptBatchIsReadBack(h, Field(snapshot, "detailedCookies").items, filters, now, clock);
    ghost var read;
    received, read := ValidateTargetCookies(h, List(batch), clock);
  }
}
