/** Reading the Authorization header and checking its signature against
    the fixed credential table.  The signature function
    base64(HMAC-SHA1(secret, message)) with trailing white space removed is
    a parameter `sign`, left uninterpreted. */
module Auth {

  import opened Wrappers
  import opened Seqs
  import opened PyStr
  import opened Exceptions
  import opened Headers

  /** `sign(secret, message)`: the signature text a client must present. */
  type Signer = (string, string) -> string

  // ----- get_auth_info -----

  /** The credentials part of `Authorization: <scheme> <id>:<signature>`:
      the header split on every single space must give exactly two fields. */
  function GetAuthInfo(h: seq<Header>): (r: Result<string, Error>)
    ensures !Has(h, "Authorization") ==> r == Failure(InvalidArgument)
    ensures r.Failure? ==> r.error == InvalidArgument
    ensures r.Success? ==> Has(h, "Authorization") && ' ' !in r.value
  {
    if !Has(h, "Authorization") then Failure(InvalidArgument)
    else
      var fields := Split(GetOr(h, "Authorization", ""), ' ');
      if |fields| != 2 then Failure(InvalidArgument) else Success(fields[1])
  }

  /** A header made of a space-free scheme, one space and space-free
      credentials yields those credentials. */
  lemma AuthInfoAccepts(h: seq<Header>, scheme: string, credentials: string)
    requires Lookup(h, "Authorization") == Some(scheme + " " + credentials)
    requires ' ' !in scheme && ' ' !in credentials
    ensures GetAuthInfo(h) == Success(credentials)
  {
    assert scheme + " " + credentials == Join([scheme, credentials], ' ');
    SplitJoin([scheme, credentials], ' ');
  }

  /** Conversely, whatever is accepted had exactly that shape. */
  lemma AuthInfoShape(h: seq<Header>)
    requires GetAuthInfo(h).Success?
    ensures exists scheme ::
              ' ' !in scheme && Lookup(h, "Authorization") == Some(scheme + " " + GetAuthInfo(h).value)
  {
    var a := GetOr(h, "Authorization", "");
    var fields := Split(a, ' ');
    assert Join(fields, ' ') == fields[0] + " " + fields[1];
    assert ' ' !in fields[0] && Lookup(h, "Authorization") == Some(fields[0] + " " + GetAuthInfo(h).value);
  }

  /** A header with no space, or with two or more, is refused. */
  lemma AuthInfoRejectsSpaceCount(h: seq<Header>, fields: seq<string>)
    requires |fields| != 2
    requires forall i :: 0 <= i < |fields| ==> ' ' !in fields[i]
    requires |fields| >= 1 && Lookup(h, "Authorization") == Some(Join(fields, ' '))
    ensures GetAuthInfo(h) == Failure(InvalidArgument)
  {
    SplitJoin(fields, ' ');
  }

  // ----- auth_check -----

  /** The `users` table of (access key id, secret access key). */
  const Users: seq<(string, string)> := [
    ("hogehoge_user1", "hogehoge_password1"),
    ("hogehoge_user2", "hogehoge_password2"),
    ("hogehoge_user3", "hogehoge_password3")
  ]

  /** `filter(lambda x: x[0] == id, users)[0][1]`, or `None` for an empty filter. */
  function FindSecret(users: seq<(string, string)>, id: string): (r: Option<string>)
    ensures r.None? <==> forall i :: 0 <= i < |users| ==> users[i].0 != id
    ensures r.Some? ==> (exists i :: 0 <= i < |users| && users[i] == (id, r.value) &&
                                     forall j :: 0 <= j < i ==> users[j].0 != id)
  {
    var i := FirstWhere(users, (u: (string, string)) => u.0 == id);
    if i < |users| then Some(users[i].1) else None
  }

  /** `auth_info.split(':')[0]`: the text before the first colon. */
  function AccessKeyId(authInfo: string): (id: string)
    ensures ':' !in id
    ensures ':' in authInfo ==> |id| < |authInfo| && authInfo[..|id|] == id && authInfo[|id|] == ':'
    ensures ':' !in authInfo ==> id == authInfo
  {
    var fields := Split(authInfo, ':');
    if |fields| > 1 then
      var rest := Join(fields[1..], ':');
      assert authInfo == fields[0] + [':'] + rest;
      assert authInfo[..|fields[0]|] == fields[0];
      fields[0]
    else
      fields[0]
  }

  /** Accept the credentials when they are `<id>:<sign(secret, raw)>` for
      the first user with that id. */
  function AuthCheck(users: seq<(string, string)>, authInfo: string, raw: string, sign: Signer): (r: Result<(), Error>)
    ensures ':' !in authInfo ==> r == Failure(InvalidArgument)
    ensures r.Failure? ==> r.error in {InvalidArgument, InvalidAccessKeyId, SignatureDoesNotMatch}
  {
    if ':' !in authInfo then Failure(InvalidArgument)
    else
      var id := AccessKeyId(authInfo);
      match FindSecret(users, id)
      case None => Failure(InvalidAccessKeyId)
      case Some(secret) =>
        if authInfo != id + ":" + sign(secret, raw) then Failure(SignatureDoesNotMatch)
        else Success(())
  }

  /** A request signed with the id's own secret is accepted. */
  lemma AuthCheckAcceptsSigned(users: seq<(string, string)>, id: string, secret: string, raw: string, sign: Signer)
    requires ':' !in id
    requires FindSecret(users, id) == Some(secret)
    ensures AuthCheck(users, id + ":" + sign(secret, raw), raw, sign) == Success(())
  {
    SplitHead(id, ':', sign(secret, raw));
  }

  /** An id absent from the table is refused, whatever the signature. */
  lemma AuthCheckUnknownId(users: seq<(string, string)>, id: string, signature: string, raw: string, sign: Signer)
    requires ':' !in id
    requires forall i :: 0 <= i < |users| ==> users[i].0 != id
    ensures AuthCheck(users, id + ":" + signature, raw, sign) == Failure(InvalidAccessKeyId)
  {
    SplitHead(id, ':', signature);
  }

  /** A known id with any other signature is refused as a mismatch. */
  lemma AuthCheckWrongSignature(users: seq<(string, string)>, id: string, secret: string, signature: string,
                                raw: string, sign: Signer)
    requires ':' !in id
    requires FindSecret(users, id) == Some(secret)
    requires signature != sign(secret, raw)
    ensures AuthCheck(users, id + ":" + signature, raw, sign) == Failure(SignatureDoesNotMatch)
  {
    SplitHead(id, ':', signature);
  }

  /** Acceptance means exactly that shape: the credentials are the id, a
      colon and the signature under the first matching user's secret. */
  lemma AuthCheckSound(users: seq<(string, string)>, authInfo: string, raw: string, sign: Signer)
    requires AuthCheck(users, authInfo, raw, sign).Success?
    ensures exists id, secret ::
              ':' !in id && FindSecret(users, id) == Some(secret) && authInfo == id + ":" + sign(secret, raw)
  {
    var id := AccessKeyId(authInfo);
    assert ':' !in id;
    var secret := FindSecret(users, id).value;
    assert authInfo == id + ":" + sign(secret, raw);
  }

  /** Each user of the table is found with its own secret. */
  lemma UsersTableLookup()
    ensures forall i :: 0 <= i < |Users| ==> FindSecret(Users, Users[i].0) == Some(Users[i].1)
    ensures forall i :: 0 <= i < |Users| ==> ':' !in Users[i].0
  {
  }
}
