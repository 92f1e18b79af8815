/** The settings records and their conversions from and to JSON values. */
module Settings {
  import opened Wrappers

  datatype Json =
    | Null
    | Bool(b: bool)
    | Number(n: int)
    | String(s: string)
    | Array(elements: seq<Json>)
    | Object(members: map<string, Json>)

  datatype Error = NotAnObject | NotAnArray | NotABool | NotAString

  datatype Commons = Commons(appName: string, version: string)
  datatype Server = Server(enable: bool, name: string, service: Option<string>)
  datatype Client = Client(enable: bool, name: string, host: Option<string>, service: Option<string>)
  datatype Communications = Communications(server: Server, clients: seq<Client>)
  datatype InputFile = InputFile(commons: Commons, communications: Communications)

  const NO_COMMONS := Commons("", "")
  const NO_SERVER := Server(false, "", None)
  const NO_COMMUNICATIONS := Communications(NO_SERVER, [])

  // ---------------------------------------------------------------- reading

  function AsObject(j: Json): Result<map<string, Json>, Error> { if j.Object? then Ok(j.members) else Err(NotAnObject) }

  function AsBool(j: Json): Result<bool, Error> { if j.Bool? then Ok(j.b) else Err(NotABool) }

  function AsString(j: Json): Result<string, Error> { if j.String? then Ok(j.s) else Err(NotAString) }

  function BoolAt(o: map<string, Json>, key: string): Result<bool, Error> {
    if key in o then AsBool(o[key]) else Ok(false)
  }

  function StringAt(o: map<string, Json>, key: string): Result<string, Error> {
    if key in o then AsString(o[key]) else Ok("")
  }

  /** An absent key is an absent value, but a null is not: it fails like any other non-string. */
  function OptionalAt(o: map<string, Json>, key: string): Result<Option<string>, Error> {
    if key in o then var s :- AsString(o[key]); Ok(Some(s)) else Ok(None)
  }

  function ReadCommons(j: Json): Result<Commons, Error> {
    var o :- AsObject(j);
    var appName :- StringAt(o, "appName");
    var version :- StringAt(o, "version");
    Ok(Commons(appName, version))
  }

  function ReadServer(j: Json): Result<Server, Error> {
    var o :- AsObject(j);
    var enable :- BoolAt(o, "enable");
    var name :- StringAt(o, "name");
    var service :- OptionalAt(o, "service");
    Ok(Server(enable, name, service))
  }

  function ReadClient(j: Json): Result<Client, Error> {
    var o :- AsObject(j);
    var enable :- BoolAt(o, "enable");
    var name :- StringAt(o, "name");
    var host :- OptionalAt(o, "host");
    var service :- OptionalAt(o, "service");
    Ok(Client(enable, name, host, service))
  }

  function ReadClients(js: seq<Json>): Result<seq<Client>, Error> {
    if |js| == 0 then Ok([]) else
      var c :- ReadClient(js[0]);
      var cs :- ReadClients(js[1..]);
      Ok([c] + cs)
  }

  function ReadClientList(j: Json): Result<seq<Client>, Error> {
    if j.Array? then ReadClients(j.elements) else Err(NotAnArray)
  }

  function ReadCommunications(j: Json): Result<Communications, Error> {
    var o :- AsObject(j);
    var server :- if "server" in o then ReadServer(o["server"]) else Ok(NO_SERVER);
    var clients :- if "clients" in o then ReadClientList(o["clients"]) else Ok([]);
    Ok(Communications(server, clients))
  }

  function ReadInputFile(j: Json): Result<InputFile, Error> {
    var o :- AsObject(j);
    var commons :- if "commons" in o then ReadCommons(o["commons"]) else Ok(NO_COMMONS);
    var communications :-
      if "communications" in o then ReadCommunications(o["communications"]) else Ok(NO_COMMUNICATIONS);
    Ok(InputFile(commons, communications))
  }

  // ---------------------------------------------------------------- what a document says

  type Members = map<string, Json>

  /** The member's own value, or false if there is no such member. */
  predicate SaysBool(o: Members, key: string, b: bool) { if key in o then o[key] == Bool(b) else !b }

  predicate SaysString(o: Members, key: string, s: string) { if key in o then o[key] == String(s) else s == "" }

  predicate SaysOptional(o: Members, key: string, s: Option<string>) {
    match s
    case None => key !in o
    case Some(v) => key in o && o[key] == String(v)
  }

  predicate SaysCommons(j: Json, c: Commons) {
    j.Object? && SaysString(j.members, "appName", c.appName) && SaysString(j.members, "version", c.version)
  }

  predicate SaysServer(j: Json, s: Server) {
    && j.Object? && SaysBool(j.members, "enable", s.enable) && SaysString(j.members, "name", s.name)
    && SaysOptional(j.members, "service", s.service)
  }

  predicate SaysClient(j: Json, c: Client) {
    && j.Object? && SaysBool(j.members, "enable", c.enable) && SaysString(j.members, "name", c.name)
    && SaysOptional(j.members, "host", c.host) && SaysOptional(j.members, "service", c.service)
  }

  predicate SaysClients(js: seq<Json>, cs: seq<Client>) {
    |js| == |cs| && forall i :: 0 <= i < |js| ==> SaysClient(js[i], cs[i])
  }

  predicate SaysCommunications(j: Json, c: Communications) {
    && j.Object?
    && (if "server" in j.members then SaysServer(j.members["server"], c.server)
        else c.server == Server(false, "", None))
    && (if "clients" in j.members
        then j.members["clients"].Array? && SaysClients(j.members["clients"].elements, c.clients)
        else c.clients == [])
  }

  predicate SaysInputFile(j: Json, f: InputFile) {
    && j.Object?
    && (if "commons" in j.members then SaysCommons(j.members["commons"], f.commons)
        else f.commons == Commons("", ""))
    && (if "communications" in j.members then SaysCommunications(j.members["communications"], f.communications)
        else f.communications == Communications(Server(false, "", None), []))
  }

  lemma ReadsCommons(j: Json, c: Commons)
    ensures ReadCommons(j) == Ok(c) <==> SaysCommons(j, c)
  {
  }

  lemma ReadsServer(j: Json, s: Server)
    ensures ReadServer(j) == Ok(s) <==> SaysServer(j, s)
  {
  }

  lemma ReadsClient(j: Json, c: Client)
    ensures ReadClient(j) == Ok(c) <==> SaysClient(j, c)
  {
  }

  lemma SaysClientsCons(js: seq<Json>, cs: seq<Client>)
    requires |js| > 0 && |cs| > 0
    ensures SaysClients(js, cs) <==> SaysClient(js[0], cs[0]) && SaysClients(js[1..], cs[1..])
  {
    if SaysClient(js[0], cs[0]) && SaysClients(js[1..], cs[1..]) {
      forall i | 0 <= i < |js| ensures SaysClient(js[i], cs[i]) {
        if i > 0 { assert js[i] == js[1..][i - 1] && cs[i] == cs[1..][i - 1]; }
      }
    }
  }

  lemma {:induction false} ReadsClients(js: seq<Json>, cs: seq<Client>)
    ensures ReadClients(js) == Ok(cs) <==> SaysClients(js, cs)
    decreases |js|
  {
    if |js| > 0 && |cs| > 0 {
      ReadsClient(js[0], cs[0]);
      ReadsClients(js[1..], cs[1..]);
      SaysClientsCons(js, cs);
      assert [cs[0]] + cs[1..] == cs;
    }
  }

  lemma ReadsCommunications(j: Json, c: Communications)
    ensures ReadCommunications(j) == Ok(c) <==> SaysCommunications(j, c)
  {
    if j.Object? {
      if "server" in j.members { ReadsServer(j.members["server"], c.server); }
      if "clients" in j.members && j.members["clients"].Array? {
        ReadsClients(j.members["clients"].elements, c.clients);
      }
    }
  }

  /** Reading gives a record exactly when that is what the document says. */
  lemma ReadsExactly(j: Json, f: InputFile)
    ensures ReadInputFile(j) == Ok(f) <==> SaysInputFile(j, f)
  {
    if j.Object? {
      if "commons" in j.members { ReadsCommons(j.members["commons"], f.commons); }
      if "communications" in j.members { ReadsCommunications(j.members["communications"], f.communications); }
    }
  }

  // ---------------------------------------------------------------- which documents can be read

  predicate HasKey(j: Json, key: string) { j.Object? && key in j.members }

  /** The member is missing or a string. */
  predicate StringIfAny(o: Members, key: string) { key in o ==> o[key].String? }

  predicate BoolIfAny(o: Members, key: string) { key in o ==> o[key].Bool? }

  predicate CommonsKinds(j: Json) {
    j.Object? && StringIfAny(j.members, "appName") && StringIfAny(j.members, "version")
  }

  predicate ServerKinds(j: Json) {
    && j.Object? && BoolIfAny(j.members, "enable") && StringIfAny(j.members, "name")
    && StringIfAny(j.members, "service")
  }

  predicate ClientKinds(j: Json) {
    && j.Object? && BoolIfAny(j.members, "enable") && StringIfAny(j.members, "name")
    && StringIfAny(j.members, "host") && StringIfAny(j.members, "service")
  }

  predicate ClientsKinds(js: seq<Json>) { forall i :: 0 <= i < |js| ==> ClientKinds(js[i]) }

  predicate CommunicationsKinds(j: Json) {
    && j.Object?
    && ("server" in j.members ==> ServerKinds(j.members["server"]))
    && ("clients" in j.members ==> j.members["clients"].Array? && ClientsKinds(j.members["clients"].elements))
  }

  predicate InputFileKinds(j: Json) {
    && j.Object?
    && ("commons" in j.members ==> CommonsKinds(j.members["commons"]))
    && ("communications" in j.members ==> CommunicationsKinds(j.members["communications"]))
  }

  lemma ClientsKindsCons(js: seq<Json>)
    requires |js| > 0
    ensures ClientsKinds(js) <==> ClientKinds(js[0]) && ClientsKinds(js[1..])
  {
    if ClientKinds(js[0]) && ClientsKinds(js[1..]) {
      forall i | 0 <= i < |js| ensures ClientKinds(js[i]) {
        if i > 0 { assert js[i] == js[1..][i - 1]; }
      }
    }
  }

  lemma {:induction false} ClientsReadable(js: seq<Json>)
    ensures ReadClients(js).Ok? <==> ClientsKinds(js)
    decreases |js|
  {
    if |js| > 0 {
      ClientsReadable(js[1..]);
      ClientsKindsCons(js);
    }
  }

  /** A document can be read exactly when everything it has is of the right kind. */
  lemma ReadableExactly(j: Json)
    ensures ReadInputFile(j).Ok? <==> InputFileKinds(j)
  {
    if HasKey(j, "communications") {
      var comm := j.members["communications"];
      if HasKey(comm, "clients") && comm.members["clients"].Array? {
        ClientsReadable(comm.members["clients"].elements);
      }
    }
  }

  // ---------------------------------------------------------------- writing

  /** The library's conversion of an optional string: an empty one becomes null. */
  function WriteOptional(o: Option<string>): Json { if o.Some? then String(o.value) else Null }

  /** Empty strings are left out. */
  function WriteCommons(c: Commons): Json {
    Object((if c.appName == "" then map[] else map["appName" := String(c.appName)])
           + (if c.version == "" then map[] else map["version" := String(c.version)]))
  }

  function WriteServer(s: Server): Json {
    Object(map["enable" := Bool(s.enable), "name" := String(s.name), "service" := WriteOptional(s.service)])
  }

  function WriteClient(c: Client): Json {
    Object(map["enable" := Bool(c.enable), "name" := String(c.name),
               "host" := WriteOptional(c.host), "service" := WriteOptional(c.service)])
  }

  function WriteClients(cs: seq<Client>): seq<Json> {
    if |cs| == 0 then [] else [WriteClient(cs[0])] + WriteClients(cs[1..])
  }

  function WriteCommunications(c: Communications): Json {
    Object(map["server" := WriteServer(c.server), "clients" := Array(WriteClients(c.clients))])
  }

  function WriteInputFile(f: InputFile): Json {
    Object(map["commons" := WriteCommons(f.commons), "communications" := WriteCommunications(f.communications)])
  }

  // ---------------------------------------------------------------- what is written

  /** A non-empty string is written out, an empty one is left out. */
  predicate ShowsString(o: Members, key: string, s: string) {
    if s == "" then key !in o else key in o && o[key] == String(s)
  }

  predicate ShowsOptional(j: Json, s: Option<string>) {
    match s
    case None => j == Null
    case Some(v) => j == String(v)
  }

  predicate ShowsCommons(j: Json, c: Commons) {
    && j.Object? && j.members.Keys <= {"appName", "version"}
    && ShowsString(j.members, "appName", c.appName) && ShowsString(j.members, "version", c.version)
  }

  predicate ShowsServer(j: Json, s: Server) {
    && j.Object? && j.members.Keys == {"enable", "name", "service"}
    && j.members["enable"] == Bool(s.enable) && j.members["name"] == String(s.name)
    && ShowsOptional(j.members["service"], s.service)
  }

  predicate ShowsClient(j: Json, c: Client) {
    && j.Object? && j.members.Keys == {"enable", "name", "host", "service"}
    && j.members["enable"] == Bool(c.enable) && j.members["name"] == String(c.name)
    && ShowsOptional(j.members["host"], c.host) && ShowsOptional(j.members["service"], c.service)
  }

  predicate ShowsClients(js: seq<Json>, cs: seq<Client>) {
    |js| == |cs| && forall i :: 0 <= i < |js| ==> ShowsClient(js[i], cs[i])
  }

  predicate ShowsCommunications(j: Json, c: Communications) {
    && j.Object? && j.members.Keys == {"server", "clients"}
    && ShowsServer(j.members["server"], c.server)
    && j.members["clients"].Array? && ShowsClients(j.members["clients"].elements, c.clients)
  }

  predicate ShowsInputFile(j: Json, f: InputFile) {
    && j.Object? && j.members.Keys == {"commons", "communications"}
    && ShowsCommons(j.members["commons"], f.commons)
    && ShowsCommunications(j.members["communications"], f.communications)
  }

  lemma WritesCommons(j: Json, c: Commons)
    ensures j == WriteCommons(c) <==> ShowsCommons(j, c)
  {
    if ShowsCommons(j, c) { assert j.members == WriteCommons(c).members; }
  }

  lemma WritesServer(j: Json, s: Server)
    ensures j == WriteServer(s) <==> ShowsServer(j, s)
  {
    if ShowsServer(j, s) { assert j.members == WriteServer(s).members; }
  }

  lemma WritesClient(j: Json, c: Client)
    ensures j == WriteClient(c) <==> ShowsClient(j, c)
  {
    if ShowsClient(j, c) { assert j.members == WriteClient(c).members; }
  }

  lemma ShowsClientsCons(js: seq<Json>, cs: seq<Client>)
    requires |js| > 0 && |cs| > 0
    ensures ShowsClients(js, cs) <==> ShowsClient(js[0], cs[0]) && ShowsClients(js[1..], cs[1..])
  {
    if ShowsClient(js[0], cs[0]) && ShowsClients(js[1..], cs[1..]) {
      forall i | 0 <= i < |js| ensures ShowsClient(js[i], cs[i]) {
        if i > 0 { assert js[i] == js[1..][i - 1] && cs[i] == cs[1..][i - 1]; }
      }
    }
  }

  lemma {:induction false} WritesClients(js: seq<Json>, cs: seq<Client>)
    ensures js == WriteClients(cs) <==> ShowsClients(js, cs)
    decreases |cs|
  {
    if |js| > 0 && |cs| > 0 {
      WritesClient(js[0], cs[0]);
      WritesClients(js[1..], cs[1..]);
      ShowsClientsCons(js, cs);
      assert [js[0]] + js[1..] == js;
    }
  }

  lemma WritesCommunications(j: Json, c: Communications)
    ensures j == WriteCommunications(c) <==> ShowsCommunications(j, c)
  {
    if HasKey(j, "server") && HasKey(j, "clients") {
      WritesServer(j.members["server"], c.server);
      if j.members["clients"].Array? { WritesClients(j.members["clients"].elements, c.clients); }
    }
    if ShowsCommunications(j, c) { assert j.members == WriteCommunications(c).members; }
  }

  /** A record is written as one document, with exactly these members. */
  lemma WritesExactly(j: Json, f: InputFile)
    ensures j == WriteInputFile(f) <==> ShowsInputFile(j, f)
  {
    if HasKey(j, "commons") && HasKey(j, "communications") {
      WritesCommons(j.members["commons"], f.commons);
      WritesCommunications(j.members["communications"], f.communications);
    }
    if ShowsInputFile(j, f) { assert j.members == WriteInputFile(f).members; }
  }

  // ---------------------------------------------------------------- write, then read

  predicate Complete(c: Client) { c.host.Some? && c.service.Some? }

  predicate AllComplete(cs: seq<Client>) { forall i :: 0 <= i < |cs| ==> Complete(cs[i]) }

  /** The server's service and every client's host and service are present. */
  predicate AllPresent(f: InputFile) {
    f.communications.server.service.Some? && AllComplete(f.communications.clients)
  }

  lemma AllCompleteCons(cs: seq<Client>)
    requires |cs| > 0
    ensures AllComplete(cs) <==> Complete(cs[0]) && AllComplete(cs[1..])
  {
    if Complete(cs[0]) && AllComplete(cs[1..]) {
      forall i | 0 <= i < |cs| ensures Complete(cs[i]) {
        if i > 0 { assert cs[i] == cs[1..][i - 1]; }
      }
    }
  }

  /** Leaving empty strings out loses nothing, because absent strings are read as empty. */
  lemma CommonsRoundTrip(c: Commons)
    ensures ReadCommons(WriteCommons(c)) == Ok(c)
  {
  }

  lemma ServerRoundTrip(s: Server)
    ensures ReadServer(WriteServer(s)) == if s.service.Some? then Ok(s) else Err(NotAString)
  {
  }

  lemma ClientRoundTrip(c: Client)
    ensures ReadClient(WriteClient(c)) == if Complete(c) then Ok(c) else Err(NotAString)
  {
  }

  lemma {:induction false} ClientsRoundTrip(cs: seq<Client>)
    ensures ReadClients(WriteClients(cs)) == if AllComplete(cs) then Ok(cs) else Err(NotAString)
  {
    if |cs| > 0 {
      ClientRoundTrip(cs[0]);
      ClientsRoundTrip(cs[1..]);
      AllCompleteCons(cs);
      assert WriteClients(cs)[1..] == WriteClients(cs[1..]) && [cs[0]] + cs[1..] == cs;
    }
  }

  /**
   Writing any input file and reading it back gives the original exactly when every optional
   field is present; otherwise the reader rejects the null it finds.
   */
  lemma InputFileRoundTrip(f: InputFile)
    ensures ReadInputFile(WriteInputFile(f)) == if AllPresent(f) then Ok(f) else Err(NotAString)
  {
    CommonsRoundTrip(f.commons);
    ServerRoundTrip(f.communications.server);
    ClientsRoundTrip(f.communications.clients);
  }

  /** Where everything is present, different settings are written differently. */
  lemma WritingIsInjective(f: InputFile, g: InputFile)
    requires AllPresent(f) && WriteInputFile(f) == WriteInputFile(g)
    ensures f == g
  {
    InputFileRoundTrip(f);
    InputFileRoundTrip(g);
  }

  // ---------------------------------------------------------------- read, then write, then read

  /** In terms of the document: it spells out every key whose absence the writer turns into null. */
  predicate SpelledOut(j: Json) {
    && HasKey(j, "communications")
    && var comm := j.members["communications"];
    && HasKey(comm, "server") && HasKey(comm.members["server"], "service")
    && (HasKey(comm, "clients") && comm.members["clients"].Array? ==>
        forall i :: 0 <= i < |comm.members["clients"].elements| ==>
          HasKey(comm.members["clients"].elements[i], "host") && HasKey(comm.members["clients"].elements[i], "service"))
  }

  lemma {:induction false} ReadClientsAt(js: seq<Json>, i: nat)
    requires ReadClients(js).Ok? && i < |js|
    ensures |ReadClients(js).value| == |js| && ReadClient(js[i]) == Ok(ReadClients(js).value[i])
  {
    if i > 0 {
      ReadClientsAt(js[1..], i - 1);
    } else if |js| > 1 {
      ReadClientsAt(js[1..], 0);
    }
  }

  lemma ReadClientsLength(js: seq<Json>)
    requires ReadClients(js).Ok?
    ensures |ReadClients(js).value| == |js|
  {
    if |js| > 0 { ReadClientsAt(js, 0); }
  }

  /** Of a document that reads, all optional values are present exactly when it spells them out. */
  lemma PresentIffSpelledOut(j: Json)
    requires ReadInputFile(j).Ok?
    ensures AllPresent(ReadInputFile(j).value) <==> SpelledOut(j)
  {
    var f := ReadInputFile(j).value;
    if HasKey(j, "communications") {
      var comm := j.members["communications"];
      if HasKey(comm, "clients") {
        var js, cs := comm.members["clients"].elements, f.communications.clients;
        ReadClientsLength(js);
        forall i | 0 <= i < |js|
          ensures Complete(cs[i]) <==> HasKey(js[i], "host") && HasKey(js[i], "service")
        {
          ReadClientsAt(js, i);
        }
      }
    }
  }

  /**
   A settings document that was read and is written out again can be read once more exactly
   when it spelled out the server's service and every client's host and service. In
   particular a document without a "server" section reads, but what is written for it does not.
   */
  lemma RewriteReadsBack(j: Json)
    requires ReadInputFile(j).Ok?
    ensures var f := ReadInputFile(j).value;
            ReadInputFile(WriteInputFile(f)) == if SpelledOut(j) then Ok(f) else Err(NotAString)
  {
    InputFileRoundTrip(ReadInputFile(j).value);
    PresentIffSpelledOut(j);
  }
}
