/** XP sources and their caps (internal/models/xp_event.go). A source is the
    text the client sent; only three texts are valid. */
module XPSource {

  const Receipt := "RECEIPT"
  const Play := "PLAY"
  const Daily := "DAILY"

  const MaxDailyReceiptXP := 50
  const MaxDailyPlayXP := 100
  const MaxDailyLoginXP := 10

  predicate ValidateSource(s: string)
  {
    s == Receipt || s == Play || s == Daily
  }

  /** The most XP one pointling may gain from source `s` in one calendar day. */
  function GetMaxDailyXP(s: string): (cap: int)
    ensures cap >= 0
    ensures cap > 0 <==> ValidateSource(s)
  {
    if s == Receipt then MaxDailyReceiptXP
    else if s == Play then MaxDailyPlayXP
    else if s == Daily then MaxDailyLoginXP
    else 0
  }

  /** The most XP one request may claim from source `s`. */
  function GetXPPerAction(s: string): (cap: int)
    ensures 0 <= cap <= GetMaxDailyXP(s)
    ensures cap > 0 <==> ValidateSource(s)
  {
    if s == Receipt then 10
    else if s == Play then 20
    else if s == Daily then 10
    else 0
  }

  /** The whole cap table: 10/50 for RECEIPT, 20/100 for PLAY, 10/10 for DAILY,
      and for any other text an invalid source with both caps 0. */
  lemma CapTable(s: string)
    ensures s == Receipt ==> ValidateSource(s) && GetXPPerAction(s) == 10 && GetMaxDailyXP(s) == 50
    ensures s == Play ==> ValidateSource(s) && GetXPPerAction(s) == 20 && GetMaxDailyXP(s) == 100
    ensures s == Daily ==> ValidateSource(s) && GetXPPerAction(s) == 10 && GetMaxDailyXP(s) == 10
    ensures s != Receipt && s != Play && s != Daily ==>
              !ValidateSource(s) && GetXPPerAction(s) == 0 && GetMaxDailyXP(s) == 0
  {
  }

  /** No positive amount is admissible for an invalid source: it exceeds both caps. */
  lemma InvalidSourceAdmitsNothing(s: string, amount: int)
    requires !ValidateSource(s) && amount > 0
    ensures amount > GetXPPerAction(s) && amount > GetMaxDailyXP(s)
  {
  }
}
