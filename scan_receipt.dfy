/**
 * Decimal rendering of integers, as JavaScript's template literals print them.
 */
module Decimal {

  predicate IsDigit(c: char) { '0' <= c <= '9' }

  function DigitChar(d: nat): char
    requires d < 10
  {
    ('0' as int + d) as char
  }

  /** The decimal digits of `n`, most significant first, without leading zeros. */
  function NatToString(n: nat): (s: string)
    ensures s != []
    ensures forall i :: 0 <= i < |s| ==> IsDigit(s[i])
    ensures s[0] == '0' ==> n == 0
  {
    if n < 10 then [DigitChar(n)] else NatToString(n / 10) + [DigitChar(n % 10)]
  }

  function IntToString(i: int): string {
    if i < 0 then "-" + NatToString(-i) else NatToString(i)
  }

  /** Reads a string of decimal digits back. */
  function ParseNat(s: string): nat
    requires forall i :: 0 <= i < |s| ==> IsDigit(s[i])
  {
    if s == [] then 0
    else
      assert IsDigit(s[|s| - 1]);
      10 * ParseNat(s[..|s| - 1]) + (s[|s| - 1] as int - '0' as int)
  }

  /** Printing a number and reading it back gives the number. */
  lemma {:induction false} ParsePrinted(n: nat)
    ensures ParseNat(NatToString(n)) == n
  {
    if n >= 10 {
      var s := NatToString(n);
      assert s[..|s| - 1] == NatToString(n / 10);
      ParsePrinted(n / 10);
    }
  }
}

/**
 * The receipt-scanning server action (src/app/actions/scan-receipt.ts): who
 * may scan, how often, which files are accepted, where the upload goes and
 * how the model's reply becomes the result.
 *
 * The rate limiter, the storage bucket, the signed URL and the vision model
 * are external services: their replies are inputs.  What the action does to
 * them (it consumes a rate-limit token, it stores a file) is recorded in the
 * fields of `ReceiptServices`.
 */
module ScanReceipt {

  import opened Wrappers
  import Decimal

  datatype User = User(id: string)

  /** The limiter's reply to `scanRatelimit.limit(user.id)`; `reset` is a time in milliseconds. */
  datatype LimitReply = LimitReply(success: bool, limit: int, remaining: int, reset: int)

  datatype File = File(name: string, mimeType: string, size: nat)

  /** A value of the model's JSON reply, passed through unchanged. */
  datatype JsonValue = Null | Bool(b: bool) | Number(literal: string) | Text(s: string) | Composite

  /**
   * The vision model's reply: the request or `JSON.parse` threw (`message` is
   * the caught error's message, or "Erreur inconnue"), the reply had no
   * content, or it parsed to an object.
   */
  datatype AiReply = AiThrew(message: string) | AiNoContent | AiObject(fields: map<string, JsonValue>)

  datatype ScanError =
    | NotAuthenticated
    | RateLimited(limit: int, resetInMinutes: int)
    | NoFile
    | UnsupportedFormat
    | TooLarge
    | UploadFailed(message: string)
    | SignedUrlFailed
    | EmptyAiReply
    | Unreadable(message: string)

  datatype ScanResult =
    | Scanned(amount: Option<JsonValue>, date: Option<JsonValue>, description: Option<JsonValue>,
              category: Option<JsonValue>, receiptPath: string, remaining: int)
    | Failed(error: string)

  /** The accepted MIME types. */
  const AllowedTypes: seq<string> := ["image/jpeg", "image/png", "image/webp", "image/heic"]

  /** 5 MiB. */
  const MaxSize: nat := 5 * 1024 * 1024

  /** The text the action returns for each error. */
  function Message(e: ScanError): (r: string)
    ensures r != ""
    ensures e.UploadFailed? ==> |r| == 15 + |e.message| && r[..15] == "Erreur upload: " && r[15..] == e.message
    ensures e.Unreadable? ==> |r| == 20 + |e.message| && r[..20] == "Lecture impossible: " && r[20..] == e.message
  {
    match e
    case NotAuthenticated => "Non authentifié"
    case RateLimited(limit, minutes) =>
      "Limite atteinte : " + Decimal.IntToString(limit) + " scans/heure. Réessaie dans "
      + Decimal.IntToString(minutes) + " minutes."
    case NoFile => "Aucun fichier trouvé"
    case UnsupportedFormat => "Format non supporté. Utilise JPG, PNG ou WEBP."
    case TooLarge => "Fichier trop volumineux (max 5MB)."
    case UploadFailed(message) => "Erreur upload: " + message
    case SignedUrlFailed => "Erreur génération URL"
    case EmptyAiReply => "Réponse vide de l'IA"
    case Unreadable(message) => "Lecture impossible: " + message
  }

  /** `Math.ceil((reset - now) / 1000 / 60)`: the wait in whole minutes, rounded up. */
  function ResetInMinutes(reset: int, now: int): (m: int)
    ensures (m - 1) * 60000 < reset - now <= m * 60000
  {
    (reset - now + 59999) / 60000
  }

  /** The file checks, in order: presence, then type, then size; the first failure decides. */
  function CheckFile(file: Option<File>): (e: Option<ScanError>)
    ensures file.None? ==> e == Some(NoFile)
    ensures file.Some? && file.value.mimeType !in AllowedTypes ==> e == Some(UnsupportedFormat)
    ensures file.Some? && file.value.mimeType in AllowedTypes && file.value.size > MaxSize ==> e == Some(TooLarge)
    ensures e.None? <==> file.Some? && file.value.mimeType in AllowedTypes && file.value.size <= MaxSize
  {
    match file
    case None => Some(NoFile)
    case Some(f) =>
      if f.mimeType !in AllowedTypes then Some(UnsupportedFormat)
      else if f.size > MaxSize then Some(TooLarge)
      else None
  }

  /**
   * The guards that run before the upload, in order: authentication, the rate
   * limit, then the file checks.
   */
  function FirstFailure(user: Option<User>, reply: LimitReply, now: int, file: Option<File>): (e: Option<ScanError>)
    ensures user.None? ==> e == Some(NotAuthenticated)
    ensures user.Some? && !reply.success ==>
              e == Some(RateLimited(reply.limit, ResetInMinutes(reply.reset, now)))
    ensures user.Some? && reply.success ==> e == CheckFile(file)
  {
    if user.None? then Some(NotAuthenticated)
    else if !reply.success then Some(RateLimited(reply.limit, ResetInMinutes(reply.reset, now)))
    else CheckFile(file)
  }

  /** The storage path `${user.id}/${Date.now()}-${file.name}`. */
  function ReceiptPath(userId: string, now: nat, fileName: string): (r: string)
    ensures |r| > |userId| + |fileName| + 2
    ensures r[..|userId| + 1] == userId + "/"
    ensures r[|r| - |fileName|..] == fileName
  {
    userId + "/" + Decimal.NatToString(now) + "-" + fileName
  }

  /** `result[key] ?? null`: a missing key and a JSON null both give null. */
  function Field(fields: map<string, JsonValue>, key: string): (v: Option<JsonValue>)
    ensures v.None? <==> key !in fields || fields[key] == Null
    ensures v.Some? ==> v.value == fields[key]
  {
    if key in fields && fields[key] != Null then Some(fields[key]) else None
  }

  /** The result built from the model's reply once the file is stored at `path`. */
  function FromReply(ai: AiReply, path: string, remaining: int): (r: ScanResult)
    ensures ai.AiThrew? ==> r == Failed(Message(Unreadable(ai.message)))
    ensures ai.AiNoContent? ==> r == Failed(Message(EmptyAiReply))
    ensures ai.AiObject? ==> r.Scanned? && r.receiptPath == path && r.remaining == remaining
    ensures ai.AiObject? ==>
              && (r.amount.None? <==> "amount" !in ai.fields || ai.fields["amount"] == Null)
              && (r.date.None? <==> "date" !in ai.fields || ai.fields["date"] == Null)
              && (r.description.None? <==> "description" !in ai.fields || ai.fields["description"] == Null)
              && (r.category.None? <==> "category" !in ai.fields || ai.fields["category"] == Null)
  {
    match ai
    case AiThrew(message) => Failed(Message(Unreadable(message)))
    case AiNoContent => Failed(Message(EmptyAiReply))
    case AiObject(fields) =>
      Scanned(Field(fields, "amount"), Field(fields, "date"), Field(fields, "description"),
              Field(fields, "category"), path, remaining)
  }

  /** The external services as far as the action changes them. */
  class ReceiptServices {
    /** One entry per call of `scanRatelimit.limit`, the user id it was charged to. */
    var limiterCalls: seq<string>
    /** The files stored in the `receipts` bucket, with their paths. */
    var stored: seq<(string, File)>

    constructor ()
      ensures limiterCalls == [] && stored == []
    {
      limiterCalls, stored := [], [];
    }

    /**
     * `scanReceipt`.  `reply` is the limiter's answer, `now` the clock in
     * milliseconds, `uploadError` the storage's answer to the upload,
     * `signedUrlOk` whether a signed URL came back, `ai` the model's reply.
     */
    method ScanReceipt(user: Option<User>, reply: LimitReply, now: nat, file: Option<File>,
                       uploadError: Option<string>, signedUrlOk: bool, ai: AiReply)
      returns (r: ScanResult)
      modifies this
      ensures user.None? ==> r == Failed(Message(NotAuthenticated)) && unchanged(this)
      // the token is consumed before the file is looked at
      ensures user.Some? ==> limiterCalls == old(limiterCalls) + [user.value.id]
      ensures FirstFailure(user, reply, now, file).Some? ==>
                r == Failed(Message(FirstFailure(user, reply, now, file).value)) && stored == old(stored)
      ensures FirstFailure(user, reply, now, file).None? ==>
                var path := ReceiptPath(user.value.id, now, file.value.name);
                if uploadError.Some? then
                  r == Failed(Message(UploadFailed(uploadError.value))) && stored == old(stored)
                else
                  && stored == old(stored) + [(path, file.value)]
                  && r == if signedUrlOk then FromReply(ai, path, reply.remaining)
                          else Failed(Message(SignedUrlFailed))
    {
      if user.None? {
        return Failed(Message(NotAuthenticated));
      }
      limiterCalls := limiterCalls + [user.value.id];
      if !reply.success {
        return Failed(Message(RateLimited(reply.limit, ResetInMinutes(reply.reset, now))));
      }
      var fileError := CheckFile(file);
      if fileError.Some? {
        return Failed(Message(fileError.value));
      }
      var path := ReceiptPath(user.value.id, now, file.value.name);
      if uploadError.Some? {
        return Failed(Message(UploadFailed(uploadError.value)));
      }
      stored := stored + [(path, file.value)];
      if !signedUrlOk {
        return Failed(Message(SignedUrlFailed));
      }
      r := FromReply(ai, path, reply.remaining);
    }
  }

  /** The size cap is inclusive: exactly 5 MiB passes, one byte more does not. */
  lemma SizeCapBoundary(name: string)
    ensures CheckFile(Some(File(name, "image/png", 5 * 1024 * 1024))) == None
    ensures CheckFile(Some(File(name, "image/png", 5 * 1024 * 1024 + 1))) == Some(TooLarge)
  {
  }

  /** Only the four listed image types are accepted; a PDF is refused whatever its size. */
  lemma OnlyImagesAccepted(name: string, size: nat)
    ensures CheckFile(Some(File(name, "application/pdf", size))) == Some(UnsupportedFormat)
    ensures size <= MaxSize ==> CheckFile(Some(File(name, "image/heic", size))) == None
  {
  }

  /**
   * A stored receipt lies in the folder of its user: the path starts with the
   * user id and a '/', and when the id holds no '/', the text before the first
   * '/' is the id itself.
   */
  lemma {:induction false} PathInUserFolder(userId: string, now: nat, fileName: string)
    ensures var p := ReceiptPath(userId, now, fileName);
            |userId| < |p| && p[..|userId|] == userId && p[|userId|] == '/'
    ensures (forall i :: 0 <= i < |userId| ==> userId[i] != '/') ==>
              var p := ReceiptPath(userId, now, fileName);
              forall i :: 0 <= i < |p| && p[i] == '/' ==> i >= |userId|
  {
    var p := ReceiptPath(userId, now, fileName);
    assert p == userId + ("/" + Decimal.NatToString(now) + "-" + fileName);
    assert p[..|userId|] == userId;
  }
}
