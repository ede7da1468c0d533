/** What a request signature covers, and what the replay check takes for the same request. */
module SignatureBase {
  import opened Framing

  datatype Request = Request(identity: string, timestamp: string, verb: string, path: string, bodyHash: string)

  function Base(r: Request): string {
    r.verb + ['\n'] + (r.path + ['\n'] + (r.timestamp + ['\n'] + r.bodyHash))
  }

  function NonceKey(r: Request): string {
    r.identity + ['\n'] + (r.timestamp + ['\n'] + (r.verb + ['\n'] + r.path))
  }

  /** Header values, methods and request targets hold no newline. */
  predicate WellFormed(r: Request) {
    '\n' !in r.identity && '\n' !in r.timestamp && '\n' !in r.verb && '\n' !in r.path
  }

  /** The signed text determines everything but the identity. */
  lemma BaseDeterminesRequest(a: Request, b: Request)
    requires WellFormed(a) && WellFormed(b)
    ensures Base(a) == Base(b) <==> a == b.(identity := a.identity)
  {
    if Base(a) == Base(b) {
      var a2, b2 := a.timestamp + ['\n'] + a.bodyHash, b.timestamp + ['\n'] + b.bodyHash;
      TerminatedUnique('\n', a.verb, b.verb, a.path + ['\n'] + a2, b.path + ['\n'] + b2);
      TerminatedUnique('\n', a.path, b.path, a2, b2);
      TerminatedUnique('\n', a.timestamp, b.timestamp, a.bodyHash, b.bodyHash);
    }
  }

  /** The nonce key determines everything but the body: two bodies under one timestamp count as a replay. */
  lemma NonceDeterminesRequest(a: Request, b: Request)
    requires WellFormed(a) && WellFormed(b)
    ensures NonceKey(a) == NonceKey(b) <==> a == b.(bodyHash := a.bodyHash)
  {
    if NonceKey(a) == NonceKey(b) {
      var a2, b2 := a.verb + ['\n'] + a.path, b.verb + ['\n'] + b.path;
      TerminatedUnique('\n', a.identity, b.identity, a.timestamp + ['\n'] + a2, b.timestamp + ['\n'] + b2);
      TerminatedUnique('\n', a.timestamp, b.timestamp, a2, b2);
      TerminatedUnique('\n', a.verb, b.verb, a.path, b.path);
    }
  }

  /** A re-send of a signed request is always seen as one: same identity and signed text, same nonce key. */
  lemma ResendHasSameNonce(a: Request, b: Request)
    requires WellFormed(a) && WellFormed(b) && a.identity == b.identity && Base(a) == Base(b)
    ensures NonceKey(a) == NonceKey(b)
  {
    BaseDeterminesRequest(a, b);
  }
}
