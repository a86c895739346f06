/** tenant/id.go: a tenant identifier that knows whether it was set at all. */
module Tenant {

  type Name = s: string | s != "" witness "t"

  /** Unset is the zero value and is refused everywhere; Single is the empty
      identifier said deliberately. */
  datatype ID = Unset | Single | Named(name: Name) {
    predicate Valid()
    {
      !Unset?
    }

    predicate IsSingle()
    {
      Single?
    }

    /** The stored form; empty for Single and, ambiguously, for Unset. */
    function String(): string
    {
      if Named? then name else ""
    }
  }

  /** For untrusted text, where an empty string means nothing was supplied. */
  function New(s: string): ID
  {
    if s == "" then Unset else Named(s)
  }

  /** Untrusted text never names the single tenant, and a name is kept as it is. */
  lemma TextIsNeverSingle(s: string)
    ensures !New(s).Single? && (New(s).Valid() <==> s != "") && New(s).String() == s
  {
  }

  /** Stored text always names a tenant, the one it was stored for if that was set. */
  lemma StoredComesBack(s: string, t: ID)
    ensures FromStored(s).Valid() && FromStored(s).String() == s && (FromStored(s).IsSingle() <==> s == "")
    ensures FromStored(t.String()) == t <==> t.Valid()
  {
  }

  /** For text read back out of storage, where an empty string was put there on purpose. */
  function FromStored(s: string): ID
  {
    if s == "" then Single else Named(s)
  }
}
