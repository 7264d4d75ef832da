/**
 * The pure helpers of the provisioner: the random password and the two
 * username derivations (`generate_password`, `make_username`,
 * `make_usernames`).
 *
 * `slugify` belongs to a foreign library; it is a parameter of type
 * `Slugifier` and nothing is assumed about it. `random.choice` is the
 * parameter `draw`: `draw(i)` is the index into the character set that
 * the i-th call picked.
 */
module Utils {

  import opened Wrappers
  import opened Text

  type Slugifier = string -> string

  const AsciiLowercase: string := "abcdefghijklmnopqrstuvwxyz"
  const AsciiUppercase: string := "ABCDEFGHIJKLMNOPQRSTUVWXYZ"
  const Digits: string := "0123456789"

  /** `string.ascii_letters + string.digits` */
  const PasswordCharacters: string := AsciiLowercase + AsciiUppercase + Digits

  /** The default of `generate_password(length=12)`. */
  const DefaultPasswordLength: nat := 12

  /** An index that `random.choice` can pick in `PasswordCharacters`. */
  type CharIndex = i: nat | i < 62

  predicate IsAsciiAlnum(c: char)
  {
    'a' <= c <= 'z' || 'A' <= c <= 'Z' || '0' <= c <= '9'
  }

  /** The character set, position by position. */
  lemma PasswordCharactersAt(k: nat)
    requires k < 62
    ensures |PasswordCharacters| == 62
    ensures k < 26 ==> PasswordCharacters[k] as int == 'a' as int + k
    ensures 26 <= k < 52 ==> PasswordCharacters[k] as int == 'A' as int + (k - 26)
    ensures 52 <= k ==> PasswordCharacters[k] as int == '0' as int + (k - 52)
  {
    assert AsciiLowercase == seq(26, i requires 0 <= i < 26 => ('a' as int + i) as char);
    assert AsciiUppercase == seq(26, i requires 0 <= i < 26 => ('A' as int + i) as char);
    assert Digits == seq(10, i requires 0 <= i < 10 => ('0' as int + i) as char);
  }

  /** `generate_password(length)`: `length` characters, each picked by `draw`. */
  function GeneratePassword(length: nat, draw: nat -> CharIndex): (r: string)
    ensures |r| == length
    ensures forall i :: 0 <= i < |r| ==> IsAsciiAlnum(r[i])
  {
    assert |PasswordCharacters| == 62 by { PasswordCharactersAt(0); }
    var r := seq(length, i requires 0 <= i < length => PasswordCharacters[draw(i)]);
    assert forall i :: 0 <= i < |r| ==> IsAsciiAlnum(r[i]) by {
      forall i | 0 <= i < |r| ensures IsAsciiAlnum(r[i]) {
        PasswordCharactersAt(draw(i));
      }
    }
    r
  }

  /** Where `c` sits in `PasswordCharacters`. */
  function IndexOf(c: char): (k: CharIndex)
    requires IsAsciiAlnum(c)
    ensures PasswordCharacters[k] == c
  {
    var k: CharIndex :=
      if 'a' <= c <= 'z' then c as int - 'a' as int
      else if 'A' <= c <= 'Z' then 26 + (c as int - 'A' as int)
      else 52 + (c as int - '0' as int);
    PasswordCharactersAt(k);
    k
  }

  /**
   * The alphabet is the whole of `string.ascii_letters + string.digits`:
   * every string of that length over letters and digits is the password
   * of some sequence of draws.
   */
  lemma EveryPasswordIsReachable(target: string)
    requires forall i :: 0 <= i < |target| ==> IsAsciiAlnum(target[i])
    ensures exists draw: nat -> CharIndex :: GeneratePassword(|target|, draw) == target
  {
    var draw: nat -> CharIndex := (i: nat) => if i < |target| then IndexOf(target[i]) else 0;
    var p := GeneratePassword(|target|, draw);
    forall i | 0 <= i < |target| ensures p[i] == target[i] {
      assert p[i] == PasswordCharacters[draw(i)];
    }
    assert p == target;
  }

  /** The string `make_username` passes to slugify in its email branch: the local part with `.` turned into `_`. */
  function EmailSlugInput(email: string): (s: string)
    ensures '.' !in s
    ensures |s| == |LocalPart(email)|
    ensures forall i :: 0 <= i < |s| ==> s[i] == if LocalPart(email)[i] == '.' then '_' else LocalPart(email)[i]
  {
    ReplaceCharRemoves(LocalPart(email), '.', '_');
    ReplaceChar(LocalPart(email), '.', '_')
  }

  /** The string `make_username` passes to slugify in its full-name branch: spaces turned into `_`, then lower-cased. */
  function NameSlugInput(fullName: string): (s: string)
    ensures ' ' !in s
    ensures |s| == |fullName|
    ensures forall i :: 0 <= i < |s| ==> s[i] == if fullName[i] == ' ' then '_' else LowerChar(fullName[i])
    ensures Lower(s) == s
  {
    var s := Lower(ReplaceChar(fullName, ' ', '_'));
    LowerIdempotent(ReplaceChar(fullName, ' ', '_'));
    s
  }

  /** What `make_username` raises: `None.replace(...)` when the email is falsy and the full name is `None`. */
  datatype UsernameError = NoneHasNoReplace

  /** `make_username(email, full_name)` */
  function MakeUsername(email: Option<string>, fullName: Option<string>, slugify: Slugifier): (r: Result<string, UsernameError>)
    ensures r.Failure? <==> !Truthy(email) && fullName.None?
  {
    if Truthy(email) then Success(slugify(EmailSlugInput(email.value)))
    else if fullName.None? then Failure(NoneHasNoReplace)
    else Success(slugify(NameSlugInput(fullName.value)))
  }

  /** With a truthy email, the full name plays no part: the username is slugify of the dot-free local part. */
  lemma EmailBranchIgnoresFullName(email: Option<string>, f1: Option<string>, f2: Option<string>, slugify: Slugifier)
    requires Truthy(email)
    ensures MakeUsername(email, f1, slugify) == MakeUsername(email, f2, slugify)
    ensures MakeUsername(email, f1, slugify) == Success(slugify(EmailSlugInput(email.value)))
  {
  }

  /** Only the text before the first `@` matters: changing the domain never changes the username. */
  lemma {:induction false} DomainIrrelevant(local: string, d1: string, d2: string, fullName: Option<string>, slugify: Slugifier)
    requires '@' !in local
    ensures MakeUsername(Some(local + "@" + d1), fullName, slugify) == MakeUsername(Some(local + "@" + d2), fullName, slugify)
    ensures MakeUsername(Some(local + "@" + d1), fullName, slugify) == Success(slugify(ReplaceChar(local, '.', '_')))
  {
    LocalPartOfAddress(local, d1);
    LocalPartOfAddress(local, d2);
    assert (local + "@" + d1) != "" && (local + "@" + d2) != "";
  }

  /** With a falsy email and a full name, the username is slugify of the lower-cased, space-free full name. */
  lemma NameBranch(email: Option<string>, fullName: string, slugify: Slugifier)
    requires !Truthy(email)
    ensures MakeUsername(email, Some(fullName), slugify) == Success(slugify(NameSlugInput(fullName)))
  {
  }

  /**
   * `make_usernames(email, full_name)`: the email-based name, twice. The
   * full-name-based name is computed and dropped.
   */
  function MakeUsernames(email: Option<string>, fullName: Option<string>, slugify: Slugifier): (r: (Option<string>, Option<string>))
    ensures r.1 == r.0
    ensures Truthy(email) ==> r.0 == Some(MakeUsername(email, fullName, slugify).value)
    ensures !Truthy(email) ==> r.0 == None
  {
    var byEmail := if Truthy(email) then Some(slugify(EmailSlugInput(email.value))) else None;
    var byName := if Truthy(fullName) then Some(slugify(NameSlugInput(fullName.value))) else None;
    (byEmail, byEmail)
  }

  /** The full-name-based name never reaches the caller: with no email, both components are `None` even for a full name. */
  lemma MakeUsernamesDropsFullName(fullName: string, slugify: Slugifier)
    requires fullName != ""
    ensures MakeUsername(None, Some(fullName), slugify).Success?
    ensures MakeUsernames(None, Some(fullName), slugify) == (None, None)
  {
  }

  /**
   * `make_usernames` as its two locals evidently intend: the email-based
   * name first and the full-name-based name second, each `None` when its
   * input is falsy.
   */
  function MakeUsernamesIntended(email: Option<string>, fullName: Option<string>, slugify: Slugifier): (r: (Option<string>, Option<string>))
    ensures r.0 == MakeUsernames(email, fullName, slugify).0
    ensures r.1.Some? <==> Truthy(fullName)
    ensures r.1.Some? ==> Success(r.1.value) == MakeUsername(None, fullName, slugify)
  {
    var byEmail := if Truthy(email) then Some(slugify(EmailSlugInput(email.value))) else None;
    var byName := if Truthy(fullName) then Some(slugify(NameSlugInput(fullName.value))) else None;
    (byEmail, byName)
  }

  /** Unlike `make_username`, `make_usernames` never fails, even when both inputs are missing. */
  lemma MakeUsernamesWithoutInputs(slugify: Slugifier)
    ensures MakeUsernames(None, None, slugify) == (None, None)
    ensures MakeUsername(None, None, slugify).Failure?
  {
  }

  lemma JohnDoeEmailInput()
    ensures ReplaceChar("John.Doe", '.', '_') == "John_Doe"
  {
    var e := ReplaceChar("John.Doe", '.', '_');
    assert |e| == 8;
    assert e[0] == 'J' && e[1] == 'o' && e[2] == 'h' && e[3] == 'n';
    assert e[4] == '_' && e[5] == 'D' && e[6] == 'o' && e[7] == 'e';
  }

  lemma JohnDoeEmailSlugInput()
    ensures EmailSlugInput("John.Doe@co.com") == "John_Doe"
  {
    assert "John.Doe" + "@" + "co.com" == "John.Doe@co.com";
    assert '@' !in "John.Doe";
    LocalPartOfAddress("John.Doe", "co.com");
    JohnDoeEmailInput();
  }

  lemma JohnDoeNameInput()
    ensures NameSlugInput("John Doe") == "john_doe"
  {
    var n := NameSlugInput("John Doe");
    assert |n| == 8;
    assert n[0] == 'j' && n[1] == 'o' && n[2] == 'h' && n[3] == 'n';
    assert n[4] == '_' && n[5] == 'd' && n[6] == 'o' && n[7] == 'e';
  }

  /**
   * The email `John.Doe@co.com` and the full name `John Doe` reach slugify
   * as `John_Doe` and `john_doe`: they give the same username exactly when
   * slugify maps those two strings alike (as a lower-casing slugify does).
   */
  lemma JohnDoe(slugify: Slugifier)
    ensures MakeUsername(Some("John.Doe@co.com"), None, slugify) == Success(slugify("John_Doe"))
    ensures MakeUsername(None, Some("John Doe"), slugify) == Success(slugify("john_doe"))
    ensures MakeUsername(Some("John.Doe@co.com"), None, slugify) == MakeUsername(None, Some("John Doe"), slugify)
        <==> slugify("John_Doe") == slugify("john_doe")
  {
    JohnDoeEmailSlugInput();
    JohnDoeNameInput();
    assert Truthy(Some("John.Doe@co.com")) && !Truthy(None);
  }
}
