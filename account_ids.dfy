/**
 * The sequential account ids of myapp/models.py: a new doctor or patient gets
 * the last id's number plus one, zero-padded to three digits after its prefix.
 */
module AccountIds {
  import opened Wrappers
  import opened Strings
  import opened Decimal

  const DoctorPrefix: string := "DOC-"
  const PatientPrefix: string := "PAT-"
  /** The minimum number of digits after the prefix. */
  const IdWidth: nat := 3

  /** Why `save` fails: `split('-')[1]` has no second field, or `int()` refuses it. */
  datatype IdError = MissingSeparator | NotANumber

  /** The position of the first `c` in `s`. */
  function IndexOf(s: string, c: char): (r: Option<nat>)
    ensures r.None? <==> c !in s
    ensures r.Some? ==> r.value < |s| && s[r.value] == c && c !in s[..r.value]
  {
    if s == [] then None
    else if s[0] == c then Some(0)
    else
      match IndexOf(s[1..], c)
      case None => None
      case Some(i) =>
        assert s[..i + 1] == [s[0]] + s[1..][..i];
        Some(i + 1)
  }

  /** Python's second field of `s` split on `-`: the text between the first and the second `-`; `None` is the IndexError. */
  function SecondField(s: string): (r: Option<string>)
    ensures r.None? <==> '-' !in s
    ensures r.Some? ==> '-' !in r.value
    ensures r.Some? ==> exists i ::
      && 0 <= i < |s| && s[i] == '-' && '-' !in s[..i] && r.value <= s[i + 1..]
      && (i + 1 + |r.value| == |s| || s[i + 1 + |r.value|] == '-')
  {
    match IndexOf(s, '-')
    case None => None
    case Some(i) =>
      var rest := s[i + 1..];
      match IndexOf(rest, '-')
      case None =>
        assert s[i] == '-' && rest <= s[i + 1..];
        Some(rest)
      case Some(j) =>
        assert s[i] == '-' && rest[..j] <= s[i + 1..] && s[i + 1 + j] == rest[j];
        Some(rest[..j])
  }

  /** The id numbered `n`: the prefix, then `n` zero-padded to three digits; a negative number keeps its sign inside the width. */
  function Format(prefix: string, n: int): string {
    if n < 0 then prefix + "-" + ZeroPadded(-n, IdWidth - 1) else prefix + ZeroPadded(n, IdWidth)
  }

  /** The id `save` assigns, given the id of the last row in primary-key order (`None`: no rows). */
  function NextId(prefix: string, last: Option<string>): Result<string, IdError> {
    match last
    case None => Success(Format(prefix, 1))
    case Some(lastId) =>
      match SecondField(lastId)
      case None => Failure(MissingSeparator)
      case Some(field) =>
        match IntOfString(field)
        case None => Failure(NotANumber)
        case Some(n) => Success(Format(prefix, n + 1))
  }

  /** The last element, as `queryset.last()` answers it. */
  function Last(ids: seq<string>): Option<string> {
    if ids == [] then None else Some(ids[|ids| - 1])
  }

  /** The first ids are `DOC-001` and `PAT-001`. */
  lemma FirstIds()
    ensures NextId(DoctorPrefix, None) == Success("DOC-001")
    ensures NextId(PatientPrefix, None) == Success("PAT-001")
  {
    assert Digits(1) == "1";
    assert Zeros(2) == "00";
    assert ZeroPadded(1, IdWidth) == "001";
    assert Format(DoctorPrefix, 1) == "DOC-001";
    assert Format(PatientPrefix, 1) == "PAT-001";
  }

  /** An id is its prefix, then at least three digits; wider numbers are not truncated. */
  lemma FormatShape(prefix: string, n: nat)
    ensures Format(prefix, n) == prefix + ZeroPadded(n, IdWidth)
    ensures AllDigits(Format(prefix, n)[|prefix|..])
    ensures |Format(prefix, n)| == |prefix| + (if |Digits(n)| >= IdWidth then |Digits(n)| else IdWidth)
    ensures n >= 1000 ==> Format(prefix, n) == prefix + Digits(n)
  {
    assert Format(prefix, n)[|prefix|..] == ZeroPadded(n, IdWidth);
    DigitsLength(n);
  }

  /** Reading back the number of a generated id gives the number itself. */
  lemma FormatRoundTrip(prefix: string, n: nat)
    requires '-' in prefix && prefix[|prefix| - 1] == '-' && '-' !in prefix[..|prefix| - 1]
    ensures SecondField(Format(prefix, n)) == Some(ZeroPadded(n, IdWidth))
    ensures IntOfString(ZeroPadded(n, IdWidth)) == Some(n)
  {
    var s := Format(prefix, n);
    var z := ZeroPadded(n, IdWidth);
    assert s == prefix + z;
    var k := |prefix| - 1;
    assert s[..k] == prefix[..k];
    assert s[k] == '-';
    assert IndexOf(s, '-') == Some(k);
    assert s[k + 1..] == z;
    assert '-' !in z by {
      assert forall i :: 0 <= i < |z| ==> IsDigit(z[i]);
    }
    ZeroPaddedRoundTrip(n, IdWidth);
    assert z != [] && !IsSpace(z[0]) && !IsSpace(z[|z| - 1]);
    StripOfUnpadded(z);
  }

  /** After the id numbered `n` comes the id numbered `n + 1`. */
  lemma Successor(prefix: string, n: nat)
    requires '-' in prefix && prefix[|prefix| - 1] == '-' && '-' !in prefix[..|prefix| - 1]
    ensures NextId(prefix, Some(Format(prefix, n))) == Success(Format(prefix, n + 1))
  {
    FormatRoundTrip(prefix, n);
  }

  /** Saving one row after another numbers them 1, 2, 3, ... */
  lemma {:induction false} SequentialIds(prefix: string, ids: seq<string>)
    requires '-' in prefix && prefix[|prefix| - 1] == '-' && '-' !in prefix[..|prefix| - 1]
    requires forall i :: 0 <= i < |ids| ==> ids[i] == Format(prefix, i + 1)
    ensures NextId(prefix, Last(ids)) == Success(Format(prefix, |ids| + 1))
  {
    if ids != [] {
      Successor(prefix, |ids|);
    }
  }

  /** Every id `save` assigns is its prefix and then at least three digits, numbered from 1 up. */
  lemma NextIdShape(prefix: string, last: Option<string>)
    ensures NextId(prefix, last).Success? ==>
      exists n: nat :: n >= 1 && NextId(prefix, last).value == prefix + ZeroPadded(n, IdWidth)
  {
    match last
    case None =>
      assert NextId(prefix, last).value == prefix + ZeroPadded(1, IdWidth);
    case Some(lastId) =>
      match SecondField(lastId)
      case None =>
      case Some(field) =>
        IntOfStringNegative(field);
        match IntOfString(field)
        case None =>
        case Some(n) =>
          var m: nat := n + 1;
          assert NextId(prefix, last).value == prefix + ZeroPadded(m, IdWidth);
  }

  /** A last id without `-`, or whose second field is not a number, makes `save` fail. */
  lemma NextIdErrors(prefix: string, lastId: string)
    ensures '-' !in lastId ==> NextId(prefix, Some(lastId)) == Failure(MissingSeparator)
    ensures SecondField(lastId).Some? && IntOfString(SecondField(lastId).value).None? ==>
      NextId(prefix, Some(lastId)) == Failure(NotANumber)
    ensures NextId(prefix, Some(lastId)).Success? <==>
      SecondField(lastId).Some? && IntOfString(SecondField(lastId).value).Some?
  {
  }

  /** The prefixes satisfy what the round trip needs. */
  lemma PrefixesSplitOnce()
    ensures '-' in DoctorPrefix && DoctorPrefix[|DoctorPrefix| - 1] == '-' && '-' !in DoctorPrefix[..|DoctorPrefix| - 1]
    ensures '-' in PatientPrefix && PatientPrefix[|PatientPrefix| - 1] == '-' && '-' !in PatientPrefix[..|PatientPrefix| - 1]
  {
    assert DoctorPrefix[..3] == "DOC";
    assert PatientPrefix[..3] == "PAT";
  }

  /** The linked user account's names. */
  datatype UserName = UserName(firstName: string, lastName: string)

  const DoctorTitle: string := "Dr. "
  const PatientTitle: string := "Patient: "

  /** The names shown after a title: the text before the first space, and the rest; `None` without a space. */
  function NamesOf(t: string): (u: Option<UserName>)
    ensures u.None? <==> ' ' !in t
    ensures u.Some? ==> t == u.value.firstName + " " + u.value.lastName && ' ' !in u.value.firstName
  {
    match IndexOf(t, ' ')
    case None => None
    case Some(i) =>
      assert t == t[..i] + " " + t[i + 1..];
      Some(UserName(t[..i], t[i + 1..]))
  }

  /** A first name without a space can be read back from the shown names, and so can the last name. */
  lemma NamesRoundTrip(u: UserName)
    requires ' ' !in u.firstName
    ensures NamesOf(u.firstName + " " + u.lastName) == Some(u)
  {
    var t := u.firstName + " " + u.lastName;
    var n := |u.firstName|;
    assert t[n] == ' ' && t[..n] == u.firstName && t[n + 1..] == u.lastName;
    assert IndexOf(t, ' ') == Some(n);
  }

  /** With a space in the first name two different users show the same names. */
  lemma NamesAmbiguous()
    ensures UserName("Mary Ann", "Lee") != UserName("Mary", "Ann Lee")
    ensures "Mary Ann" + " " + "Lee" == "Mary" + " " + "Ann Lee"
  {
  }

  /** A doctor row: the id is assigned by `save` when blank. */
  class Doctor {
    var doctorId: string
    const user: UserName

    constructor (doctorId: string, user: UserName)
      ensures this.doctorId == doctorId && this.user == user
    {
      this.doctorId := doctorId;
      this.user := user;
    }

    /** `__str__`: the title, then the names, from which a first name without a space is read back. */
    function Str(): (s: string)
      ensures |s| > |DoctorTitle| && s[..|DoctorTitle|] == DoctorTitle
      ensures ' ' !in user.firstName ==> NamesOf(s[|DoctorTitle|..]) == Some(user)
    {
      var names := user.firstName + " " + user.lastName;
      assert ' ' !in user.firstName ==> NamesOf(names) == Some(user) by {
        if ' ' !in user.firstName { NamesRoundTrip(user); }
      }
      assert (DoctorTitle + names)[|DoctorTitle|..] == names;
      DoctorTitle + names
    }

    /**
     * `save`: a blank id gets the successor of the last doctor's id in
     * primary-key order (`existing`); a set id is left alone.
     */
    method Save(existing: seq<string>) returns (r: Result<(), IdError>)
      modifies this
      ensures old(doctorId) != "" ==> doctorId == old(doctorId) && r.Success?
      ensures old(doctorId) == "" ==>
        match NextId(DoctorPrefix, Last(existing))
        case Success(id) => doctorId == id && r.Success?
        case Failure(e) => doctorId == old(doctorId) && r == Failure(e)
    {
      r := Success(());
      if doctorId == "" {
        var next := NextId(DoctorPrefix, Last(existing));
        match next
        case Success(id) => doctorId := id;
        case Failure(e) => r := Failure(e);
      }
    }
  }

  /** A patient row: the id is assigned by `save` when blank. */
  class Patient {
    var patientId: string
    const user: UserName

    constructor (patientId: string, user: UserName)
      ensures this.patientId == patientId && this.user == user
    {
      this.patientId := patientId;
      this.user := user;
    }

    /** `__str__`: the title, then the names, from which a first name without a space is read back. */
    function Str(): (s: string)
      ensures |s| > |PatientTitle| && s[..|PatientTitle|] == PatientTitle
      ensures ' ' !in user.firstName ==> NamesOf(s[|PatientTitle|..]) == Some(user)
    {
      var names := user.firstName + " " + user.lastName;
      assert ' ' !in user.firstName ==> NamesOf(names) == Some(user) by {
        if ' ' !in user.firstName { NamesRoundTrip(user); }
      }
      assert (PatientTitle + names)[|PatientTitle|..] == names;
      PatientTitle + names
    }

    /**
     * `save`: a blank id gets the successor of the last patient's id in
     * primary-key order (`existing`); a set id is left alone.
     */
    method Save(existing: seq<string>) returns (r: Result<(), IdError>)
      modifies this
      ensures old(patientId) != "" ==> patientId == old(patientId) && r.Success?
      ensures old(patientId) == "" ==>
        match NextId(PatientPrefix, Last(existing))
        case Success(id) => patientId == id && r.Success?
        case Failure(e) => patientId == old(patientId) && r == Failure(e)
    {
      r := Success(());
      if patientId == "" {
        var next := NextId(PatientPrefix, Last(existing));
        match next
        case Success(id) => patientId := id;
        case Failure(e) => r := Failure(e);
      }
    }
  }
}
