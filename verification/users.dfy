/**
 * The user side of the ledger: the extra attributes a CAS login returns, the name shown for a
 * user, and the normalisation of the club names the enrolment service reports.
 */
module Users {
  import opened Wrappers

  /** A hash key as CAS hands it over: a string or a symbol; both convert to the same symbol. */
  datatype Key = Str(text: string) | Sym(text: string) {
    /** `name.to_sym`: the symbol's name. */
    function Symbol(): string {
      text
    }
  }

  /** The `cas_*` columns the mapping fills. */
  datatype CasField = GivenName | Surname | UgentStudentId | Mail | Uid

  /** The stored values of the five `cas_*` columns. */
  datatype CasFields = CasFields(givenname: Option<string>, surname: Option<string>, ugentStudentId: Option<string>,
                                 mail: Option<string>, uid: Option<string>)
  {
    function Get(field: CasField): Option<string> {
      match field
      case GivenName => givenname
      case Surname => surname
      case UgentStudentId => ugentStudentId
      case Mail => mail
      case Uid => uid
    }

    /** The same columns with `field` set to `value`. */
    function Set(field: CasField, value: Option<string>): (f: CasFields)
      ensures f.Get(field) == value
      ensures forall other :: other != field ==> f.Get(other) == Get(other)
    {
      match field
      case GivenName => this.(givenname := value)
      case Surname => this.(surname := value)
      case UgentStudentId => this.(ugentStudentId := value)
      case Mail => this.(mail := value)
      case Uid => this.(uid := value)
    }
  }

  const NoCasFields := CasFields(None, None, None, None, None)

  /** The attribute name CAS uses for each column. */
  function KeyName(field: CasField): string {
    match field
    case GivenName => "givenname"
    case Surname => "surname"
    case UgentStudentId => "ugentStudentID"
    case Mail => "mail"
    case Uid => "uid"
  }

  /** The `case` over the symbol: the column a key names, if any; names are case-sensitive. */
  function FieldFor(name: string): (field: Option<CasField>)
    ensures field.Some? ==> KeyName(field.value) == name
    ensures field.None? ==> forall f :: KeyName(f) != name
  {
    if name == "givenname" then Some(GivenName)
    else if name == "surname" then Some(Surname)
    else if name == "ugentStudentID" then Some(UgentStudentId)
    else if name == "mail" then Some(Mail)
    else if name == "uid" then Some(Uid)
    else None
  }

  /** The table is one-to-one: each column is named by exactly one key. */
  lemma FieldForKeyName(field: CasField)
    ensures FieldFor(KeyName(field)) == Some(field)
  {
  }

  /** One pass of the loop: a known key sets its column, any other key is ignored. */
  function Apply(f: CasFields, key: Key, value: Option<string>): CasFields {
    match FieldFor(key.Symbol())
    case Some(field) => f.Set(field, value)
    case None => f
  }

  /** The loop over the attribute pairs, in the order the hash yields them. */
  function ApplyAll(f: CasFields, attrs: seq<(Key, Option<string>)>): CasFields {
    if attrs == [] then f
    else Apply(ApplyAll(f, attrs[..|attrs| - 1]), attrs[|attrs| - 1].0, attrs[|attrs| - 1].1)
  }

  /** A known key sets exactly its own column; an unknown key changes no column. */
  lemma ApplySetsOnlyItsField(f: CasFields, key: Key, value: Option<string>, field: CasField)
    ensures key.Symbol() == KeyName(field) ==> Apply(f, key, value).Get(field) == value
    ensures key.Symbol() != KeyName(field) ==> Apply(f, key, value).Get(field) == f.Get(field)
  {
    FieldForKeyName(field);
  }

  /** A column that no key names keeps its value through the whole loop. */
  lemma {:induction false} UnnamedFieldKept(f: CasFields, attrs: seq<(Key, Option<string>)>, field: CasField)
    requires forall j :: 0 <= j < |attrs| ==> attrs[j].0.Symbol() != KeyName(field)
    ensures ApplyAll(f, attrs).Get(field) == f.Get(field)
  {
    if attrs != [] {
      var last := |attrs| - 1;
      UnnamedFieldKept(f, attrs[..last], field);
      ApplySetsOnlyItsField(ApplyAll(f, attrs[..last]), attrs[last].0, attrs[last].1, field);
    }
  }

  /** When a column is named more than once, the last pair naming it wins. */
  lemma {:induction false} LastValueWins(f: CasFields, attrs: seq<(Key, Option<string>)>, field: CasField, i: nat)
    requires i < |attrs| && attrs[i].0.Symbol() == KeyName(field)
    requires forall j :: i < j < |attrs| ==> attrs[j].0.Symbol() != KeyName(field)
    ensures ApplyAll(f, attrs).Get(field) == attrs[i].1
  {
    var last := |attrs| - 1;
    if i < last {
      LastValueWins(f, attrs[..last], field, i);
    }
    ApplySetsOnlyItsField(ApplyAll(f, attrs[..last]), attrs[last].0, attrs[last].1, field);
  }

  /** Two attribute lists that differ only in string versus symbol keys. */
  predicate SameSymbols(a: seq<(Key, Option<string>)>, b: seq<(Key, Option<string>)>) {
    |a| == |b| && forall i :: 0 <= i < |a| ==> a[i].0.Symbol() == b[i].0.Symbol() && a[i].1 == b[i].1
  }

  /** Keys are compared after symbol conversion, so string and symbol keys have the same effect. */
  lemma {:induction false} StringAndSymbolKeysAgree(f: CasFields, a: seq<(Key, Option<string>)>, b: seq<(Key, Option<string>)>)
    requires SameSymbols(a, b)
    ensures ApplyAll(f, a) == ApplyAll(f, b)
  {
    if a != [] {
      var last := |a| - 1;
      StringAndSymbolKeysAgree(f, a[..last], b[..last]);
    }
  }

  /** `display_name`: the given name and surname joined by one space, or the login name. */
  function DisplayNameOf(f: CasFields, username: string): (name: string)
    ensures f.givenname.Some? && f.surname.Some? ==>
      |name| == |f.givenname.value| + 1 + |f.surname.value|
      && name[..|f.givenname.value|] == f.givenname.value
      && name[|f.givenname.value|] == ' '
      && name[|f.givenname.value| + 1..] == f.surname.value
    ensures f.givenname.None? || f.surname.None? ==> name == username
  {
    if f.surname.Some? && f.givenname.Some? then f.givenname.value + " " + f.surname.value else username
  }

  /** After a login whose attributes name a given name and a surname, those make up the display name. */
  lemma DisplayNameAfterLogin(f: CasFields, attrs: seq<(Key, Option<string>)>, username: string, i: nat, j: nat)
    requires i < |attrs| && attrs[i].0.Symbol() == "givenname" && attrs[i].1.Some?
    requires forall k :: i < k < |attrs| ==> attrs[k].0.Symbol() != "givenname"
    requires j < |attrs| && attrs[j].0.Symbol() == "surname" && attrs[j].1.Some?
    requires forall k :: j < k < |attrs| ==> attrs[k].0.Symbol() != "surname"
    ensures DisplayNameOf(ApplyAll(f, attrs), username) == attrs[i].1.value + " " + attrs[j].1.value
  {
    LastValueWins(f, attrs, GivenName, i);
    LastValueWins(f, attrs, Surname, j);
  }

  predicate IsUpper(c: char) {
    'A' <= c <= 'Z'
  }

  /** `downcase` on one character, for the ASCII letters. */
  function Lower(c: char): (d: char)
    ensures !IsUpper(d)
    ensures !IsUpper(c) ==> d == c
    ensures IsUpper(c) ==> 'a' <= d <= 'z' && d as int - 'a' as int == c as int - 'A' as int
  {
    if IsUpper(c) then (c as int + 32) as char else c
  }

  /** `downcase` followed by `gsub('-', '')`. */
  function NormaliseClub(name: string): (club: string)
    ensures '-' !in club
    ensures forall i :: 0 <= i < |club| ==> !IsUpper(club[i])
    ensures |club| + multiset(name)['-'] == |name|
  {
    if name == [] then []
    else
      assert name == [name[0]] + name[1..];
      (if name[0] == '-' then [] else [Lower(name[0])]) + NormaliseClub(name[1..])
  }

  /** `downcase` on a string: every character through `Lower`. */
  function Downcase(s: string): (t: string)
    ensures |t| == |s| && forall i :: 0 <= i < |s| ==> t[i] == Lower(s[i])
  {
    if s == [] then [] else [Lower(s[0])] + Downcase(s[1..])
  }

  /** `gsub('-', '')`: the characters other than `-`, in order. */
  function WithoutDashes(s: string): (t: string)
    ensures '-' !in t && |t| + multiset(s)['-'] == |s|
    ensures multiset(t) == multiset(s)['-' := 0]
  {
    if s == [] then []
    else
      assert s == [s[0]] + s[1..];
      (if s[0] == '-' then [] else [s[0]]) + WithoutDashes(s[1..])
  }

  /** `gsub` works through the string from left to right: removing dashes distributes over concatenation. */
  lemma {:induction false} WithoutDashesAppend(a: string, b: string)
    ensures WithoutDashes(a + b) == WithoutDashes(a) + WithoutDashes(b)
  {
    if a == [] {
      assert a + b == b;
    } else {
      WithoutDashesAppend(a[1..], b);
      WithoutDashesAppendStep(a, b);
    }
  }

  /** The inductive step of `WithoutDashesAppend`: it carries over from `a[1..]` to `a`. */
  lemma WithoutDashesAppendStep(a: string, b: string)
    requires a != []
    requires WithoutDashes(a[1..] + b) == WithoutDashes(a[1..]) + WithoutDashes(b)
    ensures WithoutDashes(a + b) == WithoutDashes(a) + WithoutDashes(b)
  {
    var ab := a + b;
    ConsTail(a, b);
    var h := if a[0] == '-' then [] else [a[0]];
    WithoutDashesFront(ab);
    WithoutDashesFront(a);
    Regroup(WithoutDashes(ab), WithoutDashes(a[1..] + b), WithoutDashes(a), h, WithoutDashes(a[1..]), WithoutDashes(b));
  }

  /** One step of `gsub('-', '')`: the first character is dropped when it is a dash. */
  lemma WithoutDashesFront(s: string)
    requires s != []
    ensures WithoutDashes(s) == (if s[0] == '-' then [] else [s[0]]) + WithoutDashes(s[1..])
  {
  }

  lemma ConsTail(a: string, b: string)
    requires a != []
    ensures (a + b)[0] == a[0] && (a + b)[1..] == a[1..] + b
  {
  }

  /** `x = h + (r + t)` and `z = h + r` give `x = z + t`. */
  lemma Regroup(x: string, y: string, z: string, h: string, r: string, t: string)
    requires x == h + y && y == r + t && z == h + r
    ensures x == z + t
  {
    assert h + (r + t) == (h + r) + t;
  }

  /** On one character `gsub('-', '')` drops a dash and keeps anything else. */
  lemma WithoutDashesOne(c: char)
    ensures WithoutDashes([c]) == if c == '-' then [] else [c]
  {
    assert [c][1..] == [];
  }

  /** The normalisation is the two passes of the source: `downcase`, then removing every `-`. */
  lemma {:induction false} NormaliseClubTwoPasses(name: string)
    ensures NormaliseClub(name) == WithoutDashes(Downcase(name))
  {
    if name != [] {
      NormaliseClubTwoPasses(name[1..]);
      var d := Downcase(name);
      assert d[0] == Lower(name[0]) && d[1..] == Downcase(name[1..]);
      assert d[0] == '-' <==> name[0] == '-';
    }
  }

  /** A name without dashes or capitals is already normal. */
  lemma {:induction false} NormalNameFixed(name: string)
    requires '-' !in name && forall i :: 0 <= i < |name| ==> !IsUpper(name[i])
    ensures NormaliseClub(name) == name
  {
    if name != [] {
      NormalNameFixed(name[1..]);
      assert name == [name[0]] + name[1..];
    }
  }

  /** Normalising a normalised name changes nothing. */
  lemma NormaliseClubIdempotent(name: string)
    ensures NormaliseClub(NormaliseClub(name)) == NormaliseClub(name)
  {
    NormalNameFixed(NormaliseClub(name));
  }

  /** The club list after normalisation; it is empty exactly when the response list is. */
  function NormaliseClubs(names: seq<string>): (clubs: seq<string>)
    ensures |clubs| == |names|
    ensures forall i :: 0 <= i < |names| ==> clubs[i] == NormaliseClub(names[i])
  {
    seq(|names|, i requires 0 <= i < |names| => NormaliseClub(names[i]))
  }

  /** A user and the columns and associations the model keeps. */
  class User {
    var username: string
    var cas: CasFields
    /** The internal names of the clubs the user is enrolled in. */
    var enrolledClubs: set<string>

    constructor (username: string)
      ensures this.username == username && cas == NoCasFields && enrolledClubs == {}
    {
      this.username := username;
      cas := NoCasFields;
      enrolledClubs := {};
    }

    /** `cas_extra_attributes=`: every pair in turn, each known key setting its column. */
    method SetCasExtraAttributes(attrs: seq<(Key, Option<string>)>)
      modifies this`cas
      ensures cas == ApplyAll(old(cas), attrs)
    {
      var i := 0;
      while i < |attrs|
        invariant 0 <= i <= |attrs|
        invariant cas == ApplyAll(old(cas), attrs[..i])
      {
        var (name, value) := attrs[i];
        assert attrs[..i + 1][..i] == attrs[..i];
        match FieldFor(name.Symbol()) {
          case Some(field) => cas := cas.Set(field, value);
          case None =>
        }
        i := i + 1;
      }
      assert attrs[..i] == attrs;
    }

    /** `display_name` of this user. */
    function DisplayName(): (name: string)
      reads this
      ensures cas.givenname.Some? && cas.surname.Some? ==> name == cas.givenname.value + " " + cas.surname.value
      ensures cas.givenname.None? || cas.surname.None? ==> name == username
    {
      DisplayNameOf(cas, username)
    }

    /**
     * The non-network part of `fetch_enrolled_clubs`: `response` is the decoded list of club
     * names (`None` when the service did not answer 200) and `known` the internal names of the
     * clubs on record. An empty list leaves the enrolment as it was; otherwise the user becomes
     * enrolled in exactly the known clubs whose internal name occurs in the normalised list.
     */
    method FetchEnrolledClubs(response: Option<seq<string>>, known: set<string>)
      modifies this`enrolledClubs
      ensures response.None? || response.value == [] ==> enrolledClubs == old(enrolledClubs)
      ensures response.Some? && response.value != [] ==>
        forall c :: c in enrolledClubs <==> c in known && c in NormaliseClubs(response.value)
    {
      if response.None? {
        return;
      }
      var clubs := NormaliseClubs(response.value);
      if clubs == [] {
        return;
      }
      enrolledClubs := set c | c in known && c in clubs;
    }
  }
}
