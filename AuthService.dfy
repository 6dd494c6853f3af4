/**
 * `AuthService`: the credential utilities of the session lifecycle. Password
 * hashing (SHA-256, rendered as upper-case hex), refresh-token generation (128
 * bytes from a cryptographic generator, rendered as base64), the availability
 * check of an (email, username) pair over the stored users, and JWT issuance.
 *
 * SHA-256, JWT signing and the random generator are not modelled inside: SHA-256
 * is a function from bytes to a 32-byte digest, signing a function of (email,
 * username), and the generator a fixed stream of bytes read from a moving position.
 */
module AuthService {
  import opened Wrappers
  import opened Text
  import opened Queries
  import opened Entity
  import opened Persistence
  import HexFormat
  import Base64

  /** A SHA-256 digest: exactly 32 bytes. */
  type Digest = d: seq<byte> | |d| == 32 witness seq(32, _ => 0 as byte)

  /** `ValidationFielUserEnum`. */
  datatype ValidationFielUserEnum =
    | UsernameAndEmailAvailable
    | EmailUnavailable
    | UsernameUnavailable
    | UsernameAndEmailUnavailable

  /** `n` bytes of the stream, starting at `from`. */
  function Window(stream: nat -> byte, from: nat, n: nat): (w: seq<byte>)
    ensures |w| == n
  {
    seq(n, i requires 0 <= i < n => stream(from + i))
  }

  /** `RandomNumberGenerator`: the bytes it hands out are those of `stream`, in order. */
  class EntropySource {
    const stream: nat -> byte
    var position: nat

    constructor (stream: nat -> byte)
      ensures this.stream == stream && position == 0
    {
      this.stream := stream;
      position := 0;
    }

    /** `GetBytes`: fills `data` in place with the next `data.Length` bytes. */
    method GetBytes(data: array<byte>)
      modifies this, data
      ensures data[..] == Window(stream, old(position), data.Length)
      ensures position == old(position) + data.Length
    {
      var i := 0;
      while i < data.Length
        invariant 0 <= i <= data.Length
        invariant position == old(position)
        invariant forall j :: 0 <= j < i ==> data[j] == stream(position + j)
      {
        data[i] := stream(position + i);
        i := i + 1;
      }
      position := position + data.Length;
    }
  }

  /** The stored form of a password: SHA-256 of its UTF-8 bytes, two hex digits per byte. */
  function PasswordHash(sha256: seq<byte> -> Digest, password: string): string
  {
    HexFormat.HexUpper(sha256(Utf8Encode(password)))
  }

  /** The hash is unsalted and 64 upper-case hex digits long, and it determines the digest. */
  lemma PasswordHashShape(sha256: seq<byte> -> Digest, password: string)
    ensures |PasswordHash(sha256, password)| == 64
    ensures forall i :: 0 <= i < 64 ==> HexFormat.IsUpperHexDigit(PasswordHash(sha256, password)[i])
    ensures HexFormat.HexDecode(PasswordHash(sha256, password)) == Some(sha256(Utf8Encode(password)))
  {
    var d := sha256(Utf8Encode(password));
    HexFormat.HexUpperLength(d);
    HexFormat.HexUpperAlphabet(d);
    HexFormat.HexRoundTrip(d);
  }

  /** Two passwords share a stored hash exactly when SHA-256 maps their UTF-8 bytes to
      the same digest. */
  lemma PasswordHashMatch(sha256: seq<byte> -> Digest, p: string, q: string)
    ensures PasswordHash(sha256, p) == PasswordHash(sha256, q) <==>
              sha256(Utf8Encode(p)) == sha256(Utf8Encode(q))
  {
    if PasswordHash(sha256, p) == PasswordHash(sha256, q) {
      HexFormat.HexUpperInjective(sha256(Utf8Encode(p)), sha256(Utf8Encode(q)));
    }
  }

  /** The refresh token the generator produces from `position` on. */
  function RefreshTokenAt(stream: nat -> byte, position: nat): string
  {
    Base64.Encode(Window(stream, position, 128))
  }

  /** A refresh token is 172 characters of the base64 alphabet ending in a single '=',
      and decoding it gives back the 128 random bytes. */
  lemma RefreshTokenShape(stream: nat -> byte, position: nat)
    ensures var t := RefreshTokenAt(stream, position);
      && |t| == 172
      && (forall i :: 0 <= i < 171 ==> Base64.IsBase64Char(t[i]))
      && t[170] != '=' && t[171] == '='
      && Base64.Decode(t) == Some(Window(stream, position, 128))
  {
    var w := Window(stream, position, 128);
    Base64.Encode128(w);
    Base64.RoundTrip(w);
    assert Base64.IsBase64Char(Base64.Encode(w)[170]);
  }

  /** Different random bytes give different refresh tokens. */
  lemma RefreshTokensDistinct(stream: nat -> byte, p: nat, q: nat)
    requires Window(stream, p, 128) != Window(stream, q, 128)
    ensures RefreshTokenAt(stream, p) != RefreshTokenAt(stream, q)
  {
    Base64.RoundTrip(Window(stream, p, 128));
    Base64.RoundTrip(Window(stream, q, 128));
  }

  function EmailIs(email: Option<string>): User -> bool
  {
    (u: User) => u.email == email
  }

  function UserNameIs(username: Option<string>): User -> bool
  {
    (u: User) => u.userName == username
  }

  function IdIs(id: Guid): User -> bool
  {
    (u: User) => u.id == id
  }

  predicate EmailTaken(users: seq<User>, email: Option<string>)
  {
    exists i :: 0 <= i < |users| && users[i].email == email
  }

  predicate UserNameTaken(users: seq<User>, username: Option<string>)
  {
    exists i :: 0 <= i < |users| && users[i].userName == username
  }

  /** The answer for the two existence checks: both taken, only the email, only the
      username, or neither. */
  function Availability(emailExists: bool, usernameExists: bool): ValidationFielUserEnum
  {
    if emailExists && usernameExists then UsernameAndEmailUnavailable
    else if emailExists then EmailUnavailable
    else if usernameExists then UsernameUnavailable
    else UsernameAndEmailAvailable
  }

  /** The availability of an (email, username) pair among `users`, by ordinal equality
      (a null field equals a null field). */
  function Classify(users: seq<User>, email: Option<string>, username: Option<string>): (r: ValidationFielUserEnum)
    ensures r == UsernameAndEmailUnavailable <==> EmailTaken(users, email) && UserNameTaken(users, username)
    ensures r == EmailUnavailable <==> EmailTaken(users, email) && !UserNameTaken(users, username)
    ensures r == UsernameUnavailable <==> !EmailTaken(users, email) && UserNameTaken(users, username)
    ensures r == UsernameAndEmailAvailable <==> !EmailTaken(users, email) && !UserNameTaken(users, username)
  {
    Availability(Exists(users, EmailIs(email)), Exists(users, UserNameIs(username)))
  }

  class AuthService {
    const sha256: seq<byte> -> Digest
    /** `GenerateJWT`: the signed token for (email, username). */
    const generateJwt: (string, string) -> string
    const rng: EntropySource
    const context: TasksDbContext

    constructor (sha256: seq<byte> -> Digest, generateJwt: (string, string) -> string,
                 rng: EntropySource, context: TasksDbContext)
      ensures this.sha256 == sha256 && this.generateJwt == generateJwt
      ensures this.rng == rng && this.context == context
    {
      this.sha256 := sha256;
      this.generateJwt := generateJwt;
      this.rng := rng;
      this.context := context;
    }

    /** `HashingPassword`: the digest rendered byte by byte with `X2`. */
    method HashingPassword(password: string) returns (hash: string)
      ensures hash == PasswordHash(sha256, password)
    {
      var bytes := sha256(Utf8Encode(password));
      var builder := "";
      for i := 0 to |bytes|
        invariant builder == HexFormat.HexUpper(bytes[..i])
      {
        assert bytes[..i + 1][..i] == bytes[..i];
        builder := builder + HexFormat.X2(bytes[i]);
      }
      assert bytes[..|bytes|] == bytes;
      hash := builder;
    }

    /** `GenerateRefreshJWT`: 128 fresh bytes from the generator, base64-encoded. */
    method GenerateRefreshJWT() returns (token: string)
      modifies rng
      ensures token == RefreshTokenAt(rng.stream, old(rng.position))
      ensures rng.position == old(rng.position) + 128
    {
      var secureRandomBytes := new byte[128];
      rng.GetBytes(secureRandomBytes);
      token := Base64.Encode(secureRandomBytes[..]);
    }

    /** `UniqueEmailAbdUserName`: classifies the pair against the committed users; reads only. */
    method UniqueEmailAbdUserName(email: Option<string>, username: Option<string>) returns (r: ValidationFielUserEnum)
      ensures r == Classify(context.users.rows, email, username)
    {
      var users := context.users.rows;
      var emailExists := Exists(users, EmailIs(email));
      var usernameExists := Exists(users, UserNameIs(username));
      return Availability(emailExists, usernameExists);
    }
  }
}
