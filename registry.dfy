/** The server's client registry: an insertion-ordered dictionary from
    connection to (address, username), as a sequence of entries whose
    connections are pairwise distinct. */
module Registry {
  import opened Wrappers
  import opened Text

  /** An opaque connection handle (the socket object). */
  type ConnId = nat

  /** A peer's remote address, `(host, port)`. */
  datatype Address = Address(host: string, port: nat)

  /** One registry entry: the key and its `(address, username)` value. */
  datatype Entry = Entry(conn: ConnId, addr: Address, username: string)

  /** `f"{host}:{port}"` */
  function AddressText(a: Address): (r: string)
    ensures |r| > |a.host| && r[|a.host|] == ':'
    ensures r[..|a.host|] == a.host && r[|a.host| + 1..] == NatToString(a.port)
  {
    a.host + ":" + NatToString(a.port)
  }

  /** The dictionary's keys, in insertion order. */
  function Keys(cs: seq<Entry>): (ks: seq<ConnId>)
    ensures |ks| == |cs|
    ensures forall i :: 0 <= i < |cs| ==> ks[i] == cs[i].conn
  {
    if cs == [] then [] else Keys(cs[..|cs| - 1]) + [cs[|cs| - 1].conn]
  }

  /** The usernames, in registry order. */
  function Usernames(cs: seq<Entry>): (us: seq<string>)
    ensures |us| == |cs|
    ensures forall i :: 0 <= i < |cs| ==> us[i] == cs[i].username
  {
    if cs == [] then [] else Usernames(cs[..|cs| - 1]) + [cs[|cs| - 1].username]
  }

  /** The username of every entry that has a non-empty one, in registry order
      (`[u for _, u in clients.values() if u]`). */
  function NonEmptyNames(cs: seq<Entry>): (us: seq<string>)
    ensures forall u :: u in us <==> u != "" && u in Usernames(cs)
  {
    if cs == [] then []
    else
      var last := cs[|cs| - 1].username;
      assert Usernames(cs) == Usernames(cs[..|cs| - 1]) + [last];
      NonEmptyNames(cs[..|cs| - 1]) + (if last != "" then [last] else [])
  }

  /** No connection is a key twice. */
  predicate DistinctKeys(cs: seq<Entry>) {
    forall i, j :: 0 <= i < j < |cs| ==> cs[i].conn != cs[j].conn
  }

  /** `conn in clients` */
  predicate Registered(cs: seq<Entry>, conn: ConnId) {
    conn in Keys(cs)
  }

  /** Where `conn` sits in the registry, if it is there. */
  function Find(cs: seq<Entry>, conn: ConnId): (r: Option<nat>)
    ensures r.Some? <==> Registered(cs, conn)
    ensures r.Some? ==> r.value < |cs| && cs[r.value].conn == conn
  {
    if cs == [] then None
    else if cs[|cs| - 1].conn == conn then Some(|cs| - 1)
    else Find(cs[..|cs| - 1], conn)
  }

  /** With distinct keys, an entry is found exactly where it sits. */
  lemma FindAt(cs: seq<Entry>, i: nat)
    requires DistinctKeys(cs) && i < |cs|
    ensures Find(cs, cs[i].conn) == Some(i)
  {
  }

  /** `clients[conn]` */
  function Lookup(cs: seq<Entry>, conn: ConnId): (e: Entry)
    requires Registered(cs, conn)
    ensures e in cs && e.conn == conn
  {
    cs[Find(cs, conn).value]
  }

  /** `get_username`: the registered username, or `host:port` when it is
      empty. A connection that is not registered makes the source raise. */
  function GetUsername(cs: seq<Entry>, conn: ConnId): (name: string)
    requires Registered(cs, conn)
    ensures name != ""
    ensures Lookup(cs, conn).username != "" ==> name == Lookup(cs, conn).username
    ensures Lookup(cs, conn).username == "" ==> name == AddressText(Lookup(cs, conn).addr)
  {
    var e := Lookup(cs, conn);
    if e.username != "" then e.username else AddressText(e.addr)
  }

  /** The position of the first entry holding `name`, if any. */
  function FirstWithName(cs: seq<Entry>, name: string): (r: Option<nat>)
    ensures r.Some? <==> name in Usernames(cs)
    ensures r.Some? ==> r.value < |cs| && cs[r.value].username == name
    ensures r.Some? ==> forall j :: 0 <= j < r.value ==> cs[j].username != name
  {
    if cs == [] then None
    else if cs[0].username == name then Some(0)
    else
      assert Usernames(cs) == [cs[0].username] + Usernames(cs[1..]);
      match FirstWithName(cs[1..], name)
      case None => None
      case Some(i) => Some(i + 1)
  }

  /** The first position holding `name` is the one `FirstWithName` finds. */
  lemma FirstWithNameAt(cs: seq<Entry>, name: string, i: nat)
    requires i < |cs| && cs[i].username == name
    requires forall j :: 0 <= j < i ==> cs[j].username != name
    ensures FirstWithName(cs, name) == Some(i)
  {
    assert Usernames(cs)[i] == name;
  }

  /** `clients[conn] = (clients[conn][0], name)`: the key keeps its place and
      its address; only its username changes. */
  function SetUsername(cs: seq<Entry>, conn: ConnId, name: string): (r: seq<Entry>)
    requires DistinctKeys(cs) && Registered(cs, conn)
    ensures |r| == |cs| && Keys(r) == Keys(cs)
    ensures forall i :: 0 <= i < |cs| && cs[i].conn != conn ==> r[i] == cs[i]
    ensures forall i :: 0 <= i < |cs| && cs[i].conn == conn ==> r[i] == cs[i].(username := name)
    ensures DistinctKeys(r)
  {
    var i := Find(cs, conn).value;
    var r := cs[i := cs[i].(username := name)];
    assert forall j :: 0 <= j < |cs| ==> Keys(r)[j] == Keys(cs)[j];
    r
  }

  /** `del clients[conn]` (nothing when absent): the other entries keep their
      order. */
  function Delete(cs: seq<Entry>, conn: ConnId): (r: seq<Entry>)
    ensures !Registered(cs, conn) ==> r == cs
    ensures Registered(cs, conn) ==>
      var i := Find(cs, conn).value; r == cs[..i] + cs[i + 1..]
  {
    match Find(cs, conn)
    case None => cs
    case Some(i) => cs[..i] + cs[i + 1..]
  }

  /** Deleting a key removes exactly that key and keeps the others distinct. */
  lemma DeleteRemovesKey(cs: seq<Entry>, conn: ConnId)
    requires DistinctKeys(cs)
    ensures DistinctKeys(Delete(cs, conn)) && !Registered(Delete(cs, conn), conn)
    ensures forall c :: c != conn ==> (Registered(Delete(cs, conn), c) <==> Registered(cs, c))
  {
    if Registered(cs, conn) {
      var i := Find(cs, conn).value;
      var r := Delete(cs, conn);
      assert forall j :: 0 <= j < i ==> r[j] == cs[j];
      assert forall j :: i <= j < |r| ==> r[j] == cs[j + 1];
      forall c | c != conn
        ensures Registered(r, c) <==> Registered(cs, c)
      {
        if Registered(cs, c) {
          var k :| 0 <= k < |cs| && cs[k].conn == c;
          assert k != i;
          if k < i { assert Keys(r)[k] == c; } else { assert Keys(r)[k - 1] == c; }
        }
      }
    }
  }

  /** Adding a fresh key at the end keeps the keys distinct. */
  lemma AppendFresh(cs: seq<Entry>, e: Entry)
    requires DistinctKeys(cs) && !Registered(cs, e.conn)
    ensures DistinctKeys(cs + [e])
    ensures forall c :: Registered(cs + [e], c) <==> Registered(cs, c) || c == e.conn
  {
    assert Keys(cs + [e]) == Keys(cs) + [e.conn] by {
      assert (cs + [e])[..|cs|] == cs;
    }
  }
}
