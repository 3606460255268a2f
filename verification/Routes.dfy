/** The row types of the routing tables (model/model_route.go, model/provider.go, model/provider_token.go). */
module Routes {

  datatype ModelRoute = ModelRoute(
    id: int,
    modelName: string,
    tokenId: int,
    providerId: int,
    enabled: bool,
    priority: int,
    weight: int)
}
