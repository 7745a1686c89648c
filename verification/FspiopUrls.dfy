/** URL builders of packages/shared/fspiop/component/fspiop-urls.ts. */
module FspiopUrls {
  import opened Results
  import opened Text

  function WithBaseUrl(baseUrl: string, uri: string): string {
    baseUrl + (if EndsWith(baseUrl, "/") then "" else "/") + uri
  }

  function NewUrl(baseUrl: string, existingUri: string): string {
    var newUri := if StartsWith(existingUri, "/") then existingUri[1..] else existingUri;
    if !EndsWith(baseUrl, "/") then baseUrl + "/" + newUri else baseUrl + newUri
  }

  // The party id type is one of an enumeration's texts; any text will do here.
  function PartyUri(idType: string, id: string, subId: Option<string>): string {
    if subId.None? then "parties/" + idType + "/" + id
    else "parties/" + idType + "/" + id + "/" + subId.value
  }

  function GetParties(baseUrl: string, idType: string, id: string, subId: Option<string>): string {
    WithBaseUrl(baseUrl, PartyUri(idType, id, subId))
  }

  function PutParties(baseUrl: string, idType: string, id: string, subId: Option<string>): string {
    WithBaseUrl(baseUrl, PartyUri(idType, id, subId))
  }

  function PutPartiesError(baseUrl: string, idType: string, id: string, subId: Option<string>): string {
    var resolvedSubId := if subId.Some? then "/" + subId.value else "";
    WithBaseUrl(baseUrl, "parties/" + idType + "/" + id + resolvedSubId + "/error")
  }

  function GetQuotes(baseUrl: string, quoteId: string): string {
    WithBaseUrl(baseUrl, "quotes/" + quoteId)
  }

  function PostQuotes(baseUrl: string): string {
    WithBaseUrl(baseUrl, "quotes")
  }

  function PutQuotes(baseUrl: string, quoteId: string): string {
    WithBaseUrl(baseUrl, "quotes/" + quoteId)
  }

  function PutQuotesError(baseUrl: string, quoteId: string): string {
    WithBaseUrl(baseUrl, "quotes/" + quoteId + "/error")
  }

  function GetTransfers(baseUrl: string, transferId: string): string {
    WithBaseUrl(baseUrl, "transfers/" + transferId)
  }

  function PatchTransfers(baseUrl: string, transferId: string): string {
    WithBaseUrl(baseUrl, "transfers/" + transferId)
  }

  function PostTransfers(baseUrl: string): string {
    WithBaseUrl(baseUrl, "transfers")
  }

  function PutTransfers(baseUrl: string, transferId: string): string {
    WithBaseUrl(baseUrl, "transfers/" + transferId)
  }

  function PutTransfersError(baseUrl: string, transferId: string): string {
    WithBaseUrl(baseUrl, "transfers/" + transferId + "/error")
  }
}
