/** The constant-time credential check. */
module Credentials {
  import opened Wire

  datatype User = User(username: seq<byte>, password: seq<byte>)

  function Max(a: nat, b: nat): nat {
    if a < b then b else a
  }

  /** The longest stored username or password, or zero for an empty list. */
  function CredentialWidth(users: seq<User>): nat {
    if users == [] then 0
    else Max(Max(|users[0].username|, |users[0].password|), CredentialWidth(users[1..]))
  }

  /** The width is the least one that covers every stored credential. */
  lemma {:induction false} WidthIsLeastBound(users: seq<User>, w: nat)
    ensures CredentialWidth(users) <= w
       <==> forall u <- users :: |u.username| <= w && |u.password| <= w
  {
    if users != [] {
      WidthIsLeastBound(users[1..], w);
      assert users == [users[0]] + users[1..];
    }
  }

  function ByteAt(s: seq<byte>, i: nat): byte {
    if i < |s| then s[i] else 0
  }

  /** What comparing `width` zero-padded bytes and the lengths can establish. */
  predicate Agrees(a: seq<byte>, b: seq<byte>, width: nat) {
    |a| == |b| && forall i | 0 <= i < width :: ByteAt(a, i) == ByteAt(b, i)
  }

  /** Comparing against `b` is equality exactly when the width covers `b`. */
  lemma AgreementIsEquality(b: seq<byte>, width: nat)
    ensures |b| <= width <==> forall a {:trigger Agrees(a, b, width)} :: Agrees(a, b, width) <==> a == b
  {
    if |b| <= width {
      forall a ensures Agrees(a, b, width) <==> a == b {
        if Agrees(a, b, width) {
          forall i | 0 <= i < |b| ensures a[i] == b[i] {
            assert ByteAt(a, i) == ByteAt(b, i);
          }
        }
      }
    } else {
      var other: byte := if b[width] == 0 then 1 else 0;
      var a := b[width := other];
      assert Agrees(a, b, width) && a[width] != b[width];
    }
  }

  lemma RoundTripBits(x: byte)
    ensures (x as bv8) as int == x
  {
    assert x % 0x100 == x;
  }

  lemma XorIsZeroOnlyOnEquals(x: byte, y: byte)
    ensures (x as bv8) ^ (y as bv8) == 0 <==> x == y
  {
    RoundTripBits(x);
    RoundTripBits(y);
    XorBits(x as bv8, y as bv8);
  }

  lemma XorBits(x: bv8, y: bv8)
    ensures x ^ y == 0 <==> x == y
  {
  }

  lemma OrBits(x: bv8, y: bv8)
    ensures x | y == 0 <==> x == 0 && y == 0
  {
  }

  function Xor(x: byte, y: byte): (d: bv8)
    ensures d == 0 <==> x == y
  {
    XorIsZeroOnlyOnEquals(x, y);
    (x as bv8) ^ (y as bv8)
  }

  function Or(x: bv8, y: bv8): (d: bv8)
    ensures d == 0 <==> x == 0 && y == 0
  {
    OrBits(x, y);
    x | y
  }

  method CtEq(a: seq<byte>, b: seq<byte>, width: nat) returns (equal: bool, compared: nat)
    ensures equal <==> Agrees(a, b, width)
    ensures compared == width
  {
    var diff: bv8 := if |a| != |b| then 1 else 0;
    compared := 0;
    for i := 0 to width
      invariant compared == i
      invariant diff == 0 <==> |a| == |b| && forall k | 0 <= k < i :: ByteAt(a, k) == ByteAt(b, k)
    {
      diff := Or(diff, Xor(ByteAt(a, i), ByteAt(b, i)));
      compared := compared + 1;
    }
    equal := diff == 0;
  }

  predicate Known(users: seq<User>, username: seq<byte>, password: seq<byte>) {
    User(username, password) in users
  }

  predicate Matches(u: User, username: seq<byte>, password: seq<byte>, width: nat) {
    Agrees(username, u.username, width) && Agrees(password, u.password, width)
  }

  /** A covering width makes matching some user the same as naming one. */
  lemma MatchIsMembership(users: seq<User>, width: nat, username: seq<byte>, password: seq<byte>)
    requires CredentialWidth(users) <= width
    ensures (exists u <- users :: Matches(u, username, password, width)) <==> Known(users, username, password)
  {
    WidthIsLeastBound(users, width);
    forall u | u in users
      ensures Matches(u, username, password, width) <==> u == User(username, password)
    {
      AgreementIsEquality(u.username, width);
      AgreementIsEquality(u.password, width);
      assert Agrees(username, u.username, width) <==> username == u.username;
      assert Agrees(password, u.password, width) <==> password == u.password;
    }
    if Known(users, username, password) {
      assert Matches(User(username, password), username, password, width);
    }
  }

  function Comparisons(users: nat, width: nat): nat {
    2 * users * width
  }

  /** Scans every user whatever matched, and compares the same number of bytes
      whatever was submitted. */
  method Authed(users: seq<User>, width: nat, username: seq<byte>, password: seq<byte>)
    returns (found: bool, compared: nat)
    ensures found <==> exists u <- users :: Matches(u, username, password, width)
    ensures CredentialWidth(users) <= width ==> (found <==> Known(users, username, password))
    ensures compared == Comparisons(|users|, width)
  {
    found, compared := false, 0;
    for i := 0 to |users|
      invariant found <==> exists k | 0 <= k < i :: Matches(users[k], username, password, width)
      invariant compared == Comparisons(i, width)
    {
      var usernameOk, n := CtEq(username, users[i].username, width);
      var passwordOk, m := CtEq(password, users[i].password, width);
      assert usernameOk && passwordOk <==> Matches(users[i], username, password, width);
      found := found || (usernameOk && passwordOk);
      compared := compared + n + m;
    }
    if CredentialWidth(users) <= width {
      MatchIsMembership(users, width, username, password);
    }
  }
}
