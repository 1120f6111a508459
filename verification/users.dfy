/**
 * The "first last" display name of a user (src/users.h).
 * Strings are byte strings; each `char` stands for one byte.
 */
module Users {

  /** The parts of a user record the name builder reads. */
  datatype User = User(id: int, firstName: seq<char>, lastName: seq<char>)

  /** The display name: first name, one space, last name. */
  function FullName(user: User): (name: seq<char>)
    ensures |name| == |user.firstName| + |user.lastName| + 1
    ensures name[..|user.firstName|] == user.firstName
    ensures name[|user.firstName|] == ' '
    ensures name[|user.firstName| + 1..] == user.lastName
  {
    user.firstName + [' '] + user.lastName
  }

  /**
   * full_user_name_to_temporary_string: allocates a buffer of the full length,
   * copies the first name to its start and the last name behind a one-byte gap,
   * then stores the space in the gap. The user record is only read.
   */
  method FullUserNameToTemporaryString(user: User) returns (name: seq<char>)
    ensures |name| == |user.firstName| + |user.lastName| + 1
    ensures name[..|user.firstName|] == user.firstName
    ensures name[|user.firstName|] == ' '
    ensures name[|user.firstName| + 1..] == user.lastName
    ensures name == FullName(user)
  {
    var first, last := user.firstName, user.lastName;
    var buffer := new char[|first| + |last| + 1];
    // memcpy(result.start, first_name.start, first_name.length)
    var i := 0;
    while i < |first|
      invariant 0 <= i <= |first|
      invariant forall k :: 0 <= k < i ==> buffer[k] == first[k]
    {
      buffer[i] := first[i];
      i := i + 1;
    }
    // memcpy(result.start + first_name.length + 1, last_name.start, last_name.length)
    var j := 0;
    while j < |last|
      invariant 0 <= j <= |last|
      invariant forall k :: 0 <= k < |first| ==> buffer[k] == first[k]
      invariant forall k :: 0 <= k < j ==> buffer[|first| + 1 + k] == last[k]
    {
      buffer[|first| + 1 + j] := last[j];
      j := j + 1;
    }
    buffer[|first|] := ' ';
    name := buffer[..];
    assert name == first + [' '] + last by {
      forall k | 0 <= k < |name| ensures name[k] == (first + [' '] + last)[k] {
        if k > |first| {
          assert name[k] == buffer[|first| + 1 + (k - |first| - 1)];
        }
      }
    }
  }
}
