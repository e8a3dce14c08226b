/**
 * What the services take from the JavaScript runtime and its crypto library, as
 * functions the model does not look into.
 */
module Runtime {

  /** SHA-256 of a text, written in hexadecimal. */
  type HashFunction = string -> string

  ghost predicate Injective(sha: HashFunction) {
    forall x, y {:trigger sha(x), sha(y)} :: sha(x) == sha(y) ==> x == y
  }

  /** What `toUpperCase` makes of each character; some become several. */
  type CaseMap = char -> string

  datatype Host = Host(sha: HashFunction, upper: CaseMap, lower: string -> string)

  predicate IsAscii(c: char) { c < '\U{80}' }

  /** Unicode's upper-case mapping: the usual one on ASCII, and done once is done for good. */
  ghost predicate UpperCases(upper: CaseMap) {
    && (forall c {:trigger upper(c)} :: 'a' <= c <= 'z' ==> upper(c) == [(c as int - 32) as char])
    && (forall c {:trigger upper(c)} :: IsAscii(c) && !('a' <= c <= 'z') ==> upper(c) == [c])
    && (forall c, i {:trigger upper(c)[i]} :: 0 <= i < |upper(c)| ==> upper(upper(c)[i]) == [upper(c)[i]])
  }
}
