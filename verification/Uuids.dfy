/** UUIDs as text, in the spelling in which the program draws them and the database gives them back. */
module Uuids {
  predicate IsHex(c: char) {
    '0' <= c <= '9' || 'a' <= c <= 'f' || 'A' <= c <= 'F'
  }

  predicate IsUuid(s: string) {
    |s| == 36 && forall i | 0 <= i < 36 :: if i in {8, 13, 18, 23} then s[i] == '-' else IsHex(s[i])
  }

  predicate AllUuids(ids: set<string>) {
    forall id | id in ids :: IsUuid(id)
  }
}
