/** The bounded searches for an unused name: of a sub-space, and of a user. */
module NameSearch {
  import opened Base
  import opened Strings

  // ---------- Sub-space names ----------

  const MAX_PREFIX: nat := 8

  /** `strings.ReplaceAll(s, ".", "")` */
  function WithoutDots(s: string): (r: string)
    ensures |r| <= |s|
  {
    if s == "" then "" else (if s[0] == '.' then "" else [s[0]]) + WithoutDots(s[1..])
  }

  /** `strings.TrimRight(s, "-")` */
  function TrimDashes(s: string): string {
    if s != "" && s[|s| - 1] == '-' then TrimDashes(s[..|s| - 1]) else s
  }

  /** Slicing panics in Go for a suffix of more than 8 characters. */
  function SubSpaceNameWithSuffix(root: string, request: string, suffix: string): string
    requires |suffix| <= MAX_PREFIX
  {
    var short := WithoutDots(request);
    var prefix := if |short| + |suffix| > MAX_PREFIX then short[..MAX_PREFIX - |suffix|] else short;
    TrimDashes(root + "-" + prefix + suffix)
  }

  lemma {:induction false} TrimmedShape(s: string)
    ensures var r := TrimDashes(s);
            && r <= s && (r != "" ==> r[|r| - 1] != '-')
            && (forall i | |r| <= i < |s| :: s[i] == '-')
  {
    if s != "" && s[|s| - 1] == '-' {
      TrimmedShape(s[..|s| - 1]);
    }
  }

  /** At most 9 characters longer than the root, no dash at the end, and the suffix of an attempt is kept whole. */
  lemma SubSpaceNameShape(root: string, request: string, suffix: string)
    requires |suffix| <= MAX_PREFIX
    ensures var name := SubSpaceNameWithSuffix(root, request, suffix);
            && |name| <= |root| + 9
            && (name != "" ==> name[|name| - 1] != '-')
            && (suffix != "" && suffix[|suffix| - 1] != '-' ==>
                  root + "-" <= name && |name| >= |suffix| && name[|name| - |suffix|..] == suffix)
  {
    var short := WithoutDots(request);
    var prefix := if |short| + |suffix| > MAX_PREFIX then short[..MAX_PREFIX - |suffix|] else short;
    var s := root + "-" + prefix + suffix;
    TrimmedShape(s);
    if suffix != "" && suffix[|suffix| - 1] != '-' {
      assert s[|s| - 1] == suffix[|suffix| - 1];
      assert TrimDashes(s) == s;
    }
  }

  /** The name tried in attempt k: no suffix first, then the attempt number. */
  function Attempt(root: string, request: string, k: nat): string
    requires k < 100
  {
    if k == 0 then SubSpaceNameWithSuffix(root, request, "") else AttemptWithNumber(root, request, k)
  }

  function AttemptWithNumber(root: string, request: string, k: nat): string
    requires 0 < k < 100
  {
    ItoaLength(k);
    SubSpaceNameWithSuffix(root, request, Itoa(k))
  }

  /** A numbered attempt carries its whole number at the end. */
  lemma NumberedAttemptShape(root: string, request: string, k: nat)
    requires 0 < k < 100
    ensures var name := Attempt(root, request, k);
            |name| >= |Itoa(k)| && name[|name| - |Itoa(k)|..] == Itoa(k) && root + "-" <= name && |name| <= |root| + 9
  {
    ItoaLength(k);
    ItoaDigits(k);
    assert '0' <= Itoa(k)[|Itoa(k)| - 1] <= '9';
    SubSpaceNameShape(root, request, Itoa(k));
  }

  datatype SubSpaceError = AlreadyExists(name: string) | LookupFailed(name: string) | AllTaken

  /** The Spaces by name, each with the SpaceRequest in its labels, if any; looking up the `unreachable` names fails. */
  datatype Taken = Taken(spaces: map<string, Option<(string, string)>>, unreachable: set<string>)

  /** The name of attempt k belongs to a Space that is not the request's own. */
  predicate TakenByOther(taken: Taken, root: string, request: (string, string), k: nat)
    requires k < 100
  {
    var name := Attempt(root, request.0, k);
    name !in taken.unreachable && name in taken.spaces && taken.spaces[name] != Some(request)
  }

  /** The name is that of the first attempt not taken by another. */
  ghost predicate IsDecisive(taken: Taken, root: string, request: (string, string), name: string) {
    exists k: nat ::
      k < 100 && name == Attempt(root, request.0, k) && forall j: nat | j < k :: TakenByOther(taken, root, request, j)
  }

  /** The first name not taken by another decides. */
  method ResolveSubSpaceName(taken: Taken, root: string, request: (string, string))
    returns (r: Result<string, SubSpaceError>)
    ensures r == Err(AllTaken) <==> forall k: nat | k < 100 :: TakenByOther(taken, root, request, k)
    ensures r.Ok? ==>
              IsDecisive(taken, root, request, r.value) && r.value !in taken.unreachable && r.value !in taken.spaces
    ensures r.Err? && r.error.AlreadyExists? ==>
              && IsDecisive(taken, root, request, r.error.name) && r.error.name !in taken.unreachable
              && r.error.name in taken.spaces && taken.spaces[r.error.name] == Some(request)
    ensures r.Err? && r.error.LookupFailed? ==>
              IsDecisive(taken, root, request, r.error.name) && r.error.name in taken.unreachable
  {
    var attempt: nat := 0;
    while attempt <= 100
      invariant attempt <= 100
      invariant forall k: nat | k < attempt :: TakenByOther(taken, root, request, k)
    {
      if attempt == 100 {
        return Err(AllTaken);
      }
      var name := Attempt(root, request.0, attempt);
      assert !TakenByOther(taken, root, request, attempt) ==> IsDecisive(taken, root, request, name);
      if name in taken.unreachable {
        assert !TakenByOther(taken, root, request, attempt);
        return Err(LookupFailed(name));
      }
      if name !in taken.spaces {
        assert !TakenByOther(taken, root, request, attempt);
        return Ok(name);
      }
      if taken.spaces[name] == Some(request) {
        assert !TakenByOther(taken, root, request, attempt);
        return Err(AlreadyExists(name));
      }
      attempt := attempt + 1;
    }
    assert false;
  }

  // ---------- Usernames ----------

  /** The name tried after i - 1 others: the transformed name, then `-2`, `-3`, ... on a name cut to leave room. */
  function Username(transformed: string, maxLength: nat, i: nat): string
    requires maxLength >= 4
  {
    if i <= 1 then transformed
    else (if |transformed| > maxLength - 4 then transformed[..maxLength - 4] else transformed) + "-" + Itoa(i)
  }

  datatype UsernameError = OwnMurExists | CannotLookUp | NoneFree

  /** The MURs with their owners, and the Spaces; looking up the names in the last two sets fails. */
  datatype Names = Names(murs: map<string, string>, spaces: set<string>,
                         unreachableMurs: set<string>, unreachableSpaces: set<string>)

  /** Free for the signup: no MUR, and no Space either if the default Space is managed. */
  predicate IsFree(name: string, names: Names, managesSpace: bool) {
    && name !in names.unreachableMurs && name !in names.murs
    && (managesSpace ==> name !in names.unreachableSpaces && name !in names.spaces)
  }

  predicate IsOwn(name: string, names: Names, owner: string) {
    name !in names.unreachableMurs && name in names.murs && names.murs[name] == owner
  }

  /** A lookup that the search makes for the name fails. */
  predicate IsUnreachable(name: string, names: Names, managesSpace: bool) {
    || name in names.unreachableMurs
    || (name !in names.murs && managesSpace && name in names.unreachableSpaces)
  }

  /** The search goes on: the name is known to be somebody else's. */
  predicate IsBlocked(name: string, names: Names, owner: string, managesSpace: bool) {
    !IsFree(name, names, managesSpace) && !IsOwn(name, names, owner) && !IsUnreachable(name, names, managesSpace)
  }

  /** The name tried i-th, and none of those before it, ends the search. */
  ghost predicate IsFirst(names: Names, transformed: string, maxLength: nat, owner: string, managesSpace: bool, i: nat)
    requires maxLength >= 4
  {
    && 1 <= i < 100
    && forall k: nat | 1 <= k < i :: IsBlocked(Username(transformed, maxLength, k), names, owner, managesSpace)
  }

  /** `transformed` has at most `maxLength` characters. The first name not blocked decides. */
  method GenerateCompliantUsername(names: Names, transformed: string, maxLength: nat, owner: string, managesSpace: bool)
    returns (r: Result<string, UsernameError>)
    requires maxLength >= 4 && |transformed| <= maxLength
    ensures r == Err(NoneFree) <==>
              forall i: nat | 1 <= i < 100 ::
                IsBlocked(Username(transformed, maxLength, i), names, owner, managesSpace)
    ensures r.Ok? ==> |r.value| <= maxLength && IsFree(r.value, names, managesSpace) && exists i: nat ::
              IsFirst(names, transformed, maxLength, owner, managesSpace, i)
                  && r.value == Username(transformed, maxLength, i)
    ensures r == Err(OwnMurExists) ==> exists i: nat ::
              && IsFirst(names, transformed, maxLength, owner, managesSpace, i)
              && IsOwn(Username(transformed, maxLength, i), names, owner)
    ensures r == Err(CannotLookUp) ==> exists i: nat ::
              && IsFirst(names, transformed, maxLength, owner, managesSpace, i)
              && IsUnreachable(Username(transformed, maxLength, i), names, managesSpace)
  {
    var newUsername := transformed;
    for i := 2 to 101
      invariant newUsername == Username(transformed, maxLength, i - 1)
      invariant i <= 100 ==> |newUsername| <= maxLength
      invariant forall k: nat | 1 <= k < i - 1 ::
                  IsBlocked(Username(transformed, maxLength, k), names, owner, managesSpace)
    {
      assert IsFirst(names, transformed, maxLength, owner, managesSpace, i - 1);
      if newUsername in names.unreachableMurs {
        return Err(CannotLookUp);
      }
      if newUsername !in names.murs {
        if !managesSpace {
          return Ok(newUsername);
        }
        if newUsername in names.unreachableSpaces {
          return Err(CannotLookUp);
        }
        if newUsername !in names.spaces {
          return Ok(newUsername);
        }
      } else if names.murs[newUsername] == owner {
        return Err(OwnMurExists);
      }
      newUsername := (if |transformed| > maxLength - 4 then transformed[..maxLength - 4] else transformed) + "-"
          + Itoa(i);
      ItoaLength(i);
    }
    return Err(NoneFree);
  }

  // ---------- What the names look like ----------

  /**
   * The names are all different: the first is the transformed name, and the i-th of the others ends in a dash
   * and i.
   */
  lemma UsernameShape(transformed: string, maxLength: nat, i: nat)
    requires maxLength >= 4 && 1 <= i < 100
    ensures var (name, end) := (Username(transformed, maxLength, i), "-" + Itoa(i));
            && (i == 1 ==> name == transformed)
            && (i > 1 ==>
                  && |name| >= |end| && name[|name| - |end|..] == end
                  && name[..|name| - |end|] <= transformed
                  && |name| - |end| == if |transformed| > maxLength - 4 then maxLength - 4 else |transformed|)
  {
  }

  lemma NumberedUsernamesDiffer(transformed: string, maxLength: nat, i: nat, j: nat)
    requires maxLength >= 4 && 1 < i < 100 && 1 < j < 100 && i != j
    ensures Username(transformed, maxLength, i) != Username(transformed, maxLength, j)
  {
    UsernameShape(transformed, maxLength, i);
    UsernameShape(transformed, maxLength, j);
    var n := if |transformed| > maxLength - 4 then maxLength - 4 else |transformed|;
    if Username(transformed, maxLength, i) == Username(transformed, maxLength, j) {
      assert Username(transformed, maxLength, i)[n..] == "-" + Itoa(i);
      assert Username(transformed, maxLength, j)[n..] == "-" + Itoa(j);
      assert Itoa(i) == ("-" + Itoa(i))[1..] == ("-" + Itoa(j))[1..] == Itoa(j);
      AtoiItoa(i);
      AtoiItoa(j);
    }
  }

  /** The dots of a request's name are left out, and nothing else. */
  lemma {:induction false} OnlyDotsGo(a: string, b: string)
    ensures '.' !in WithoutDots(a)
    ensures WithoutDots(a + b) == WithoutDots(a) + WithoutDots(b)
    ensures '.' !in a ==> WithoutDots(a) == a
  {
    if a == "" {
      assert a + b == b;
      assert WithoutDots(a) == "";
    } else {
      assert (a + b)[1..] == a[1..] + b;
      OnlyDotsGo(a[1..], b);
      assert a == [a[0]] + a[1..];
    }
  }

  /**
   * A sub-space's name is the root, a dash, the request's name without dots, cut so that it takes 8 characters with the
   * suffix, and the suffix; only dashes at the end are left out.
   */
  lemma SubSpaceNameParts(root: string, request: string, suffix: string) returns (part: string)
    requires |suffix| <= 8
    ensures part <= WithoutDots(request) && |part| + |suffix| <= 8
    ensures part != WithoutDots(request) ==> |part| + |suffix| == 8
    ensures var (name, whole) := (SubSpaceNameWithSuffix(root, request, suffix), root + "-" + part + suffix);
            name <= whole && forall i | |name| <= i < |whole| :: whole[i] == '-'
  {
    var short := WithoutDots(request);
    part := if |short| + |suffix| > 8 then short[..8 - |suffix|] else short;
    TrimmedShape(root + "-" + part + suffix);
  }

  /** The first name tried has no suffix. */
  lemma FirstAttemptParts(root: string, request: string) returns (part: string)
    ensures part <= WithoutDots(request) && |part| <= 8 && (part != WithoutDots(request) ==> |part| == 8)
    ensures var (name, whole) := (Attempt(root, request, 0), root + "-" + part);
            name <= whole && forall i | |name| <= i < |whole| :: whole[i] == '-'
  {
    part := SubSpaceNameParts(root, request, "");
    assert root + "-" + part + "" == root + "-" + part;
  }
}
