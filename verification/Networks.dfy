/** Wire constants (server/constants.go). */
module Networks {
  import opened Wrappers

  predicate IsEvm(network: string) {
    network == "base" || network == "base_sepolia"
  }

  predicate IsSvm(network: string) {
    network == "solana" || network == "solana_devnet"
  }

  const BASE := "eip155:8453"
  const BASE_SEPOLIA := "eip155:84532"
  const SOLANA := "solana:5eykt4UsFv8P8NJdTREpY1vzqKqZKvdp"
  const SOLANA_DEVNET := "solana:EtWTRABZaYq6iMfeYKouRu166VU2xqa1"

  const BASE_USDC := "0x833589fCD6eDb6E08f4c7C32D4f71b54bdA02913"
  const BASE_SEPOLIA_USDC := "0x036CbD53842c5426634e7929541eC2318f3dCF7e"
  const SOLANA_USDC := "EPjFWdd5AufqSSqeM2qN1xzybapC8G4wEGGkZwyTDt1v"
  const SOLANA_DEVNET_USDC := "4zMMC9srt5Ri5X14GAgXhaHii3GnPAEERYPJgZJDncDU"

  const SOLANA_FEE_PAYER := "BFK9TLC3edb13K6v4YyH3DwPb5DSUpkWvb7XnqCL9b4F"
  const SOLANA_DEVNET_FEE_PAYER := "Hc3sdEAsCGQcpgfivywog9uwtk8gUBUZgsxdME1EJy88"

  /** caip2: the CAIP-2 identifier, or the name itself when it has none. */
  function Caip2(network: string): string {
    if network == "base" then BASE
    else if network == "base_sepolia" then BASE_SEPOLIA
    else if network == "solana" then SOLANA
    else if network == "solana_devnet" then SOLANA_DEVNET
    else network
  }

  function LookupUsdc(network: string): Option<string> {
    if network == "base" || network == BASE then Some(BASE_USDC)
    else if network == "base_sepolia" || network == BASE_SEPOLIA then Some(BASE_SEPOLIA_USDC)
    else if network == "solana" || network == SOLANA then Some(SOLANA_USDC)
    else if network == "solana_devnet" || network == SOLANA_DEVNET then Some(SOLANA_DEVNET_USDC)
    else None
  }

  function UsdcAsset(network: string, fallback: string): string {
    match LookupUsdc(network)
    case Some(a) => a
    case None => if LookupUsdc(fallback).Some? then LookupUsdc(fallback).value else ""
  }

  function FeePayer(network: string): string {
    if network == "solana_devnet" then SOLANA_DEVNET_FEE_PAYER else SOLANA_FEE_PAYER
  }

  /** The Base58 pattern of a Solana address. */
  predicate IsBase58Address(s: string) {
    && 32 <= |s| <= 44
    && forall i :: 0 <= i < |s| ==> IsBase58Char(s[i])
  }

  predicate IsBase58Char(c: char) {
    || '1' <= c <= '9'
    || 'A' <= c <= 'H' || 'J' <= c <= 'N' || 'P' <= c <= 'Z'
    || 'a' <= c <= 'k' || 'm' <= c <= 'z'
  }

  /** The supported networks, as the facilitator and the chains know them. */
  lemma NetworkTable()
    ensures Caip2("base") == "eip155:8453" && Caip2("base_sepolia") == "eip155:84532"
    ensures Caip2("solana") == "solana:5eykt4UsFv8P8NJdTREpY1vzqKqZKvdp"
    ensures Caip2("solana_devnet") == "solana:EtWTRABZaYq6iMfeYKouRu166VU2xqa1"
    ensures LookupUsdc("base") == Some("0x833589fCD6eDb6E08f4c7C32D4f71b54bdA02913")
    ensures LookupUsdc("base_sepolia") == Some("0x036CbD53842c5426634e7929541eC2318f3dCF7e")
    ensures LookupUsdc("solana") == Some("EPjFWdd5AufqSSqeM2qN1xzybapC8G4wEGGkZwyTDt1v")
    ensures LookupUsdc("solana_devnet") == Some("4zMMC9srt5Ri5X14GAgXhaHii3GnPAEERYPJgZJDncDU")
    ensures FeePayer("solana") == "BFK9TLC3edb13K6v4YyH3DwPb5DSUpkWvb7XnqCL9b4F"
    ensures FeePayer("solana_devnet") == "Hc3sdEAsCGQcpgfivywog9uwtk8gUBUZgsxdME1EJy88"
    ensures forall n :: n !in ["base", "base_sepolia", "solana", "solana_devnet"] ==> Caip2(n) == n
  {
    NamesDiffer();
  }

  lemma NamesDiffer()
    ensures "base" != "base_sepolia" && "base" != "solana" && "base" != "solana_devnet"
    ensures "base_sepolia" != "solana" && "base_sepolia" != "solana_devnet" && "solana" != "solana_devnet"
  {
    assert |"base"| == 4 && |"base_sepolia"| == 12 && |"solana"| == 6 && |"solana_devnet"| == 13;
  }

  /** A supported network has a USDC contract, under its CAIP-2 identifier as under its name. */
  lemma UsdcByEitherName(network: string)
    requires IsEvm(network) || IsSvm(network)
    ensures LookupUsdc(network).Some? && LookupUsdc(Caip2(network)) == LookupUsdc(network)
  {
    NamesDiffer();
    IdentifiersDiffer();
  }

  lemma IdentifiersDiffer()
    ensures BASE !in ["base", "base_sepolia", "solana", "solana_devnet"]
    ensures BASE_SEPOLIA !in ["base", "base_sepolia", "solana", "solana_devnet"]
    ensures SOLANA !in ["base", "base_sepolia", "solana", "solana_devnet"]
    ensures SOLANA_DEVNET !in ["base", "base_sepolia", "solana", "solana_devnet"]
    ensures BASE != BASE_SEPOLIA && BASE != SOLANA && BASE != SOLANA_DEVNET
    ensures BASE_SEPOLIA != SOLANA && BASE_SEPOLIA != SOLANA_DEVNET && SOLANA != SOLANA_DEVNET
  {
    assert |"base"| == 4 && |"base_sepolia"| == 12 && |"solana"| == 6 && |"solana_devnet"| == 13;
    assert |BASE| == 11 && |BASE_SEPOLIA| == 12 && |SOLANA| == 39 && |SOLANA_DEVNET| == 39;
    assert BASE_SEPOLIA[0] == 'e' && "base_sepolia"[0] == 'b' && SOLANA[7] == '5' && SOLANA_DEVNET[7] == 'E';
  }

  /** The pattern's classes are Base58: letters and digits but for the four that look alike. */
  lemma Base58Alphabet(s: string)
    ensures IsBase58Address(s) <==>
      32 <= |s| <= 44
      && forall i :: 0 <= i < |s| ==>
           ('0' <= s[i] <= '9' || 'A' <= s[i] <= 'Z' || 'a' <= s[i] <= 'z') && s[i] !in {'0', 'O', 'I', 'l'}
  {
    assert forall c :: IsBase58Char(c) <==>
      ('0' <= c <= '9' || 'A' <= c <= 'Z' || 'a' <= c <= 'z') && c !in {'0', 'O', 'I', 'l'};
  }

  lemma Caip2Distinct(m: string, n: string)
    requires (IsEvm(m) || IsSvm(m)) && (IsEvm(n) || IsSvm(n)) && m != n
    ensures Caip2(m) != Caip2(n)
  {
    assert |BASE| == 11 && |BASE_SEPOLIA| == 12 && |SOLANA| == 39 && |SOLANA_DEVNET| == 39;
    assert SOLANA[7] == '5' && SOLANA_DEVNET[7] == 'E';
  }
}
